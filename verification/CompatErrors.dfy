/** What a failure does to a depth-first make, with and without -k. */
module CompatErrors {
  import opened MakeGraph
  import opened CompatNodes
  import opened CompatSafety

  /** With -k the program never stops; without it, it stops at the first failure, which is then the
      last thing that it has run. */
  predicate Reported(mode: Mode, s: Fields) {
    && (mode.keepgoing ==> !s.stopped)
    && (!mode.keepgoing ==> forall i :: 0 <= i < |s.ran| && s.ran[i].node in mode.fails ==> i == |s.ran| - 1)
    && (!mode.keepgoing ==> (s.stopped <==> s.ran != [] && s.ran[|s.ran| - 1].node in mode.fails))
  }

  lemma FinishReports(g: Graph, mode: Mode, s: Fields, n: nat, p: nat, before: seq<Stage>)
    requires LinksIn(g) && Fits(g, s) && n < |g| && p < |g| && Reported(mode, s) && !s.stopped
    ensures var s' := Finish(g, mode, s, n, p, before);
            && Reported(mode, s')
            && (n in mode.fails && s'.ran != s.ran ==> s'.made[n] == Failed && (mode.keepgoing ==> !s'.make[p]))
  {
    assert LinkedAt(g, n);
  }

  lemma AgainReports(g: Graph, mode: Mode, s: Fields, n: nat, p: nat)
    requires Fits(g, s) && n < |g| && p < |g| && s.made[n] != Unmade
    ensures Again(g, s, n, p).ran == s.ran && Again(g, s, n, p).stopped == s.stopped
  {
  }

  lemma {:induction false} MakeReports(g: Graph, mode: Mode, s: Fields, n: nat, p: nat)
    requires LinksIn(g) && Fits(g, s) && n < |g| && p < |g| && Reported(mode, s)
    ensures Reported(mode, CompatMake(g, mode, s, n, p))
    decreases Left(s.made), 1, 0
  {
    hide Finish, Again;
    if s.stopped {
    } else if s.made[n] != Unmade {
      AgainReports(g, mode, s, n, p);
    } else {
      LeftSet(s.made, n, BeingMade);
      ChildrenReport(g, mode, Enter(s, n), n, |g[n].children|);
      var s1 := Children(g, mode, Enter(s, n), n, |g[n].children|);
      if !s1.stopped { FinishReports(g, mode, s1, n, p, s.made); }
    }
  }

  lemma {:induction false} ChildrenReport(g: Graph, mode: Mode, s: Fields, n: nat, k: nat)
    requires LinksIn(g) && Fits(g, s) && n < |g| && k <= |g[n].children| && Reported(mode, s)
    ensures Reported(mode, Children(g, mode, s, n, k))
    decreases Left(s.made), 2, k
  {
    if k > 0 {
      assert LinkedAt(g, n) && g[n].children[k - 1] < |g|;
      ChildrenReport(g, mode, s, n, k - 1);
      MakeReports(g, mode, Children(g, mode, s, n, k - 1), g[n].children[k - 1], n);
    }
  }

  lemma {:induction false} TargetsReport(g: Graph, mode: Mode, s: Fields, targs: seq<nat>)
    requires LinksIn(g) && Fits(g, s) && Refs(g, targs) && Reported(mode, s)
    ensures Reported(mode, Targets(g, mode, s, targs))
  {
    if targs != [] {
      var k := |targs| - 1;
      TargetsReport(g, mode, s, targs[..k]);
      MakeReports(g, mode, Targets(g, mode, s, targs[..k]), targs[k], targs[k]);
    }
  }

  /** MAIN: a whole make has stopped early exactly if commands have failed without -k; then it has run
      nothing after them. */
  lemma ErrorsIff(g: Graph, mode: Mode, s: Fields, targs: seq<nat>)
    requires LinksIn(g) && Fresh(g, s) && Refs(g, targs)
    ensures var s' := Targets(g, mode, s, targs);
            && (s'.stopped <==> !mode.keepgoing && exists i :: 0 <= i < |s'.ran| && s'.ran[i].node in mode.fails)
            && (!mode.keepgoing ==> forall i :: 0 <= i < |s'.ran| - 1 ==> s'.ran[i].node !in mode.fails)
  {
    TargetsReport(g, mode, s, targs);
  }
}
