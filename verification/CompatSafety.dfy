/** What holds of every depth-first make, whatever the graph and whatever fails. */
module CompatSafety {
  import opened MakeGraph
  import opened CompatNodes

  predicate Final(v: Stage) {
    v == Made || v == UpToDate || v == Failed || v == Aborted
  }

  /** What a step may change at a node: it is entered at most once, keeps what it has become,
      and once it is not to be made it stays so while it is being made. */
  predicate Onward(s: Fields, s': Fields, x: nat)
    requires x < |s.made| == |s'.made| == |s.make| == |s'.make|
  {
    && (s.made[x] != Unmade ==> s'.made[x] != Unmade)
    && (Final(s.made[x]) ==> s'.made[x] == s.made[x])
    && (s.made[x] != Unmade && !s.make[x] ==> !s'.make[x])
  }

  predicate Bad(v: Stage) {
    v == Failed || v == Aborted
  }

  /** Nothing has failed or been given up between two times. */
  predicate NoneWorse(before: seq<Stage>, made: seq<Stage>) {
    |before| == |made| && forall x :: 0 <= x < |made| && Bad(made[x]) ==> before[x] == made[x]
  }

  /** What was done, failed or given up has stayed so between two times. */
  predicate NoneChanged(before: seq<Stage>, made: seq<Stage>) {
    |before| == |made| && forall x :: 0 <= x < |made| && Final(before[x]) ==> made[x] == before[x]
  }

  /** At the time of a launch all children were done, and none had failed; nothing had gone wrong
      since the node was entered. */
  predicate LaunchedRight(g: Graph, l: Launch) {
    && l.node < |g| == |l.made| && NoneWorse(l.before, l.made) && NoneChanged(l.before, l.made)
    && forall c :: c in g[l.node].children ==> c < |g| && l.made[c] in {Made, UpToDate, Aborted}
  }

  /** Some child has not been made at the time of the launch. */
  predicate LacksChild(g: Graph, l: Launch)
    requires LaunchedRight(g, l)
  {
    exists c :: c in g[l.node].children && l.made[c] != Made && l.made[c] != UpToDate
  }

  /** Some child had been given up, on behalf of another node, when the node was entered. */
  predicate HadGivenUpChild(g: Graph, l: Launch)
    requires LaunchedRight(g, l)
  {
    exists c :: c in g[l.node].children && l.before[c] == Aborted
  }

  lemma LacksIff(g: Graph, l: Launch)
    requires LaunchedRight(g, l)
    ensures LacksChild(g, l) <==> HadGivenUpChild(g, l)
  {
    if c :| c in g[l.node].children && l.made[c] != Made && l.made[c] != UpToDate { assert l.made[c] == Aborted; }
    if c :| c in g[l.node].children && l.before[c] == Aborted { assert Final(l.before[c]); }
  }

  /** New launches are of nodes that were UNMADE in `s` and are not now. */
  predicate NewLaunches(g: Graph, s: Fields, s': Fields)
    requires |s.made| == |s'.made| == |g|
  {
    && |s.ran| <= |s'.ran| && s'.ran[..|s.ran|] == s.ran
    && (forall i :: |s.ran| <= i < |s'.ran| ==>
          LaunchedRight(g, s'.ran[i]) && s.made[s'.ran[i].node] == Unmade && s'.made[s'.ran[i].node] != Unmade)
    && (forall i, j :: |s.ran| <= i < j < |s'.ran| ==> s'.ran[i].node != s'.ran[j].node)
  }

  predicate Goes(g: Graph, s: Fields, s': Fields) {
    && Fits(g, s) && Fits(g, s')
    && (forall x :: 0 <= x < |g| ==> Onward(s, s', x))
    && NewLaunches(g, s, s')
  }

  lemma GoesOn(g: Graph, s: Fields, t: Fields, u: Fields)
    requires Goes(g, s, t) && Goes(g, t, u)
    ensures Goes(g, s, u)
  {
    forall x | 0 <= x < |g| ensures Onward(s, u, x) { assert Onward(s, t, x) && Onward(t, u, x); }
    assert u.ran[..|s.ran|] == u.ran[..|t.ran|][..|s.ran|];
    forall i | |s.ran| <= i < |t.ran| ensures u.ran[i] == t.ran[i] { assert u.ran[..|t.ran|][i] == t.ran[i]; }
    forall i | |s.ran| <= i < |u.ran|
      ensures LaunchedRight(g, u.ran[i]) && s.made[u.ran[i].node] == Unmade && u.made[u.ran[i].node] != Unmade
    {
      var n := u.ran[i].node;
      if i < |t.ran| { assert Onward(t, u, n); } else { assert Onward(s, t, n); }
    }
    forall i, j | |s.ran| <= i < j < |u.ran| ensures u.ran[i].node != u.ran[j].node {
      if i < |t.ran| <= j { assert t.made[t.ran[i].node] != Unmade; }
    }
  }

  lemma Stays(g: Graph, s: Fields, s': Fields)
    requires Fits(g, s) && Fits(g, s') && s'.ran == s.ran
    requires forall x :: 0 <= x < |g| ==> Onward(s, s', x)
    ensures Goes(g, s, s')
  {
  }

  lemma AgainGoes(g: Graph, s: Fields, n: nat, p: nat)
    requires LinksIn(g) && Fits(g, s) && n < |g| && p < |g| && s.made[n] != Unmade
    ensures Goes(g, s, Asked(Again(g, s, n, p), p))
  {
    Stays(g, s, Asked(Again(g, s, n, p), p));
  }

  lemma EnterGoes(g: Graph, s: Fields, n: nat)
    requires Fits(g, s) && n < |g| && s.made[n] == Unmade
    ensures Goes(g, s, Enter(s, n))
  {
    Stays(g, s, Enter(s, n));
  }

  /** A child does not leave its parent ready to be made unless it is done and has not failed. */
  predicate ChildDone(s: Fields, c: nat, n: nat) {
    c < |s.made| && n < |s.make| && (s.make[n] ==> s.made[c] in {Made, UpToDate, Aborted})
  }

  /** From where a node is entered to where it leaves its stage, if nothing is launched. */
  lemma FinishQuiet(g: Graph, s0: Fields, s: Fields, s': Fields, n: nat)
    requires n < |g| && Fits(g, s0) && s0.made[n] == Unmade && Goes(g, Enter(s0, n), s)
    requires Fits(g, s') && s'.ran == s.ran && s'.made[n] != Unmade
    requires forall x :: 0 <= x < |g| && x != n ==> s'.made[x] == s.made[x] && (s'.make[x] ==> s.make[x])
    ensures Goes(g, s0, s')
  {
    var e := Enter(s0, n);
    forall x | 0 <= x < |g| ensures Onward(s0, s', x) { assert Onward(e, s, x); }
    forall i | |s0.ran| <= i < |s'.ran|
      ensures LaunchedRight(g, s'.ran[i]) && s0.made[s'.ran[i].node] == Unmade && s'.made[s'.ran[i].node] != Unmade
    {
      assert e.made[s.ran[i].node] == Unmade && s.made[s.ran[i].node] != Unmade;
    }
  }

  /** The same, if `n` is launched. */
  lemma FinishLaunch(g: Graph, s0: Fields, s: Fields, s': Fields, n: nat, l: Launch)
    requires n < |g| && Fits(g, s0) && s0.made[n] == Unmade && Goes(g, Enter(s0, n), s)
    requires Fits(g, s') && s'.ran == s.ran + [l] && l.node == n && LaunchedRight(g, l) && s'.made[n] != Unmade
    requires forall x :: 0 <= x < |g| && x != n ==> s'.made[x] == s.made[x] && (s'.make[x] ==> s.make[x])
    ensures Goes(g, s0, s')
  {
    var e := Enter(s0, n);
    forall x | 0 <= x < |g| ensures Onward(s0, s', x) { assert Onward(e, s, x); }
    forall i | |s0.ran| <= i < |s.ran| ensures e.made[s.ran[i].node] == Unmade && s.made[s.ran[i].node] != Unmade { }
    forall i, j | |s0.ran| <= i < j < |s'.ran| ensures s'.ran[i].node != s'.ran[j].node { }
  }

  lemma Launches(g: Graph, mode: Mode, s: Fields, n: nat, p: nat, before: seq<Stage>)
    requires LinksIn(g) && n < |g| && p < |g| && Fits(g, s)
    ensures var s' := Asked(RunCommands(g, mode, s, n, p, before), p);
            && Fits(g, s') && s'.ran == s.ran + [Launch(n, before, s.made)] && s'.made[n] != Unmade
            && forall x :: 0 <= x < |g| && x != n ==> s'.made[x] == s.made[x] && (s'.make[x] ==> s.make[x])
  {
  }

  lemma FinishGoes(g: Graph, mode: Mode, s0: Fields, s: Fields, n: nat, p: nat)
    requires LinksIn(g) && n < |g| && p < |g| && Fits(g, s0) && s0.made[n] == Unmade
    requires Goes(g, Enter(s0, n), s) && (s.make[n] ==> NoneWorse(s0.made, s.made))
    requires forall c :: c in g[n].children ==> ChildDone(s, c, n)
    ensures Goes(g, s0, Asked(Finish(g, mode, s, n, p, s0.made), p))
  {
    var l := Look(g, s, n);
    if s.make[n] && OutOfDate(g, l, n) {
      Launches(g, mode, l, n, p, s0.made);
      assert LinkedAt(g, n);
      forall x | 0 <= x < |g| && Final(s0.made[x]) ensures s.made[x] == s0.made[x] {
        assert Onward(Enter(s0, n), s, x);
      }
      FinishLaunch(g, s0, s, Asked(RunCommands(g, mode, l, n, p, s0.made), p), n, Launch(n, s0.made, s.made));
    } else {
      FinishQuiet(g, s0, s, Asked(Finish(g, mode, s, n, p, s0.made), p), n);
    }
  }

  /** A parent that is still to be made has seen nothing go wrong. */
  predicate Clears(s: Fields, s': Fields, p: nat) {
    p < |s'.make| && (s'.stopped || (s'.make[p] ==> NoneWorse(s.made, s'.made)))
  }

  /** `CompatMake` keeps the rules, and the parent goes on only if the node is done and nothing
      has gone wrong in it. */
  lemma {:induction false} CompatGoes(g: Graph, mode: Mode, s: Fields, n: nat, p: nat)
    requires LinksIn(g) && Fits(g, s) && n < |g| && p < |g| && (s.made[p] != Unmade || p == n)
    ensures var s' := CompatMake(g, mode, s, n, p);
            Goes(g, s, s') && (s'.stopped || ChildDone(s', n, p)) && Clears(s, s', p)
    decreases Left(s.made), 1, 0
  {
    if s.stopped {
      Stays(g, s, s);
    } else if s.made[n] != Unmade {
      AgainGoes(g, s, n, p);
    } else {
      LeftSet(s.made, n, BeingMade);
      EnterGoes(g, s, n);
      var k := |g[n].children|;
      var s1 := Children(g, mode, Enter(s, n), n, k);
      ChildrenGo(g, mode, Enter(s, n), n, k);
      if s1.stopped {
        GoesOn(g, s, Enter(s, n), s1);
      } else {
        FinishGoes(g, mode, s, s1, n, p);
        FinishClears(g, mode, s, s1, n, p);
      }
    }
  }

  lemma FinishClears(g: Graph, mode: Mode, s0: Fields, s: Fields, n: nat, p: nat)
    requires LinksIn(g) && n < |g| && p < |g| && Fits(g, s0) && s0.made[n] == Unmade && Fits(g, s) && !s.stopped
    requires s.make[n] ==> NoneWorse(Enter(s0, n).made, s.made)
    ensures var s' := Asked(Finish(g, mode, s, n, p, s0.made), p);
            (s'.stopped || ChildDone(s', n, p)) && Clears(s0, s', p)
  {
    assert s.make[n] ==> NoneWorse(s0.made, s.made);
  }

  lemma {:induction false} ChildrenGo(g: Graph, mode: Mode, s: Fields, n: nat, k: nat)
    requires LinksIn(g) && Fits(g, s) && n < |g| && k <= |g[n].children| && s.made[n] != Unmade
    ensures var s' := Children(g, mode, s, n, k);
            Goes(g, s, s') && Clears(s, s', n) &&
              (s'.stopped || forall i :: 0 <= i < k ==> ChildDone(s', g[n].children[i], n))
    decreases Left(s.made), 2, k
  {
    if k == 0 {
      Stays(g, s, s);
    } else {
      assert LinkedAt(g, n) && g[n].children[k - 1] < |g|;
      var t := Children(g, mode, s, n, k - 1);
      ChildrenGo(g, mode, s, n, k - 1);
      assert Onward(s, t, n);
      CompatGoes(g, mode, t, g[n].children[k - 1], n);
      ChildrenStep(g, s, t, CompatMake(g, mode, t, g[n].children[k - 1], n), n, k);
    }
  }

  lemma ChildrenStep(g: Graph, s: Fields, t: Fields, u: Fields, n: nat, k: nat)
    requires n < |g| && 0 < k <= |g[n].children| && Goes(g, s, t) && Goes(g, t, u) && (t.stopped ==> u == t)
    requires s.made[n] != Unmade && Clears(s, t, n) && Clears(t, u, n)
    requires t.stopped || forall i :: 0 <= i < k - 1 ==> ChildDone(t, g[n].children[i], n)
    requires u.stopped || ChildDone(u, g[n].children[k - 1], n)
    ensures Goes(g, s, u) && Clears(s, u, n) &&
            (u.stopped || forall i :: 0 <= i < k ==> ChildDone(u, g[n].children[i], n))
  {
    GoesOn(g, s, t, u);
    assert Onward(s, t, n) && Onward(t, u, n);
    if !u.stopped {
      forall i | 0 <= i < k - 1 ensures ChildDone(u, g[n].children[i], n) {
        assert ChildDone(t, g[n].children[i], n) && Onward(t, u, g[n].children[i]);
      }
    }
  }

  // ----- Whole runs.

  predicate Fresh(g: Graph, s: Fields) {
    && Fits(g, s) && !s.stopped && s.ran == []
    && forall x :: 0 <= x < |g| ==>
         s.made[x] == Unmade && s.mtime[x] == 0 && s.cmtime[x] == 0 && !s.childMade[x] && s.seen[x] == 0
  }

  lemma {:induction false} TargetsGo(g: Graph, mode: Mode, s: Fields, targs: seq<nat>)
    requires LinksIn(g) && Fits(g, s) && Refs(g, targs)
    ensures Goes(g, s, Targets(g, mode, s, targs))
  {
    if targs == [] {
      Stays(g, s, s);
    } else {
      var k := |targs| - 1;
      TargetsGo(g, mode, s, targs[..k]);
      var t := Targets(g, mode, s, targs[..k]);
      CompatGoes(g, mode, t, targs[k], targs[k]);
      GoesOn(g, s, t, CompatMake(g, mode, t, targs[k], targs[k]));
    }
  }

  /** MAIN: whatever the graph, cycles included, and whatever fails: the commands of a node are
      started at most once, at a time when each of its children is done and none has failed,
      and when nothing has gone wrong since the node was entered; a child is missing then
      exactly if one had been given up before that. */
  lemma RunSafely(g: Graph, mode: Mode, s: Fields, targs: seq<nat>)
    requires LinksIn(g) && Fresh(g, s) && Refs(g, targs)
    ensures var ran := Targets(g, mode, s, targs).ran;
            && (forall i, j :: 0 <= i < j < |ran| ==> ran[i].node != ran[j].node)
            && (forall i :: 0 <= i < |ran| ==>
                  LaunchedRight(g, ran[i]) && (LacksChild(g, ran[i]) <==> HadGivenUpChild(g, ran[i])))
  {
    TargetsGo(g, mode, s, targs);
    var ran := Targets(g, mode, s, targs).ran;
    forall i | 0 <= i < |ran|
      ensures LaunchedRight(g, ran[i]) && (LacksChild(g, ran[i]) <==> HadGivenUpChild(g, ran[i]))
    {
      LacksIff(g, ran[i]);
    }
  }

  // ----- A child that has been given up does not stop its other parents.

  lemma {:induction false} GivenUpChildren(g: Graph, mode: Mode, s: Fields, n: nat, k: nat)
    requires LinksIn(g) && Fits(g, s) && n < |g| && k <= |g[n].children| && !s.stopped
    requires forall i :: 0 <= i < k ==> g[n].children[i] < |g| && s.made[g[n].children[i]] == Aborted
    ensures Children(g, mode, s, n, k) == s.(seen := s.seen[n := s.seen[n] + k])
  {
    if k == 0 {
      assert s.seen[n := s.seen[n]] == s.seen;
    } else {
      GivenUpChildren(g, mode, s, n, k - 1);
      assert s.seen[n := s.seen[n] + (k - 1)][n := s.seen[n] + k] == s.seen[n := s.seen[n] + k];
    }
  }

  /** A node whose children have all been given up before it is entered has its commands run all
      the same. */
  lemma GivenUpChildrenAreIgnored(g: Graph, mode: Mode, s: Fields, n: nat, p: nat)
    requires LinksIn(g) && Fits(g, s) && n < |g| && p < |g| && !s.stopped && s.made[n] == Unmade
    requires forall c :: c in g[n].children ==> c < |g| && c != n && s.made[c] == Aborted
    requires OODate(g[n], s.childMade[n], s.cmtime[n])
    ensures CompatMake(g, mode, s, n, p).ran == s.ran + [Launch(n, s.made, s.made[n := BeingMade])]
  {
    LeftSet(s.made, n, BeingMade);
    forall i | 0 <= i < |g[n].children|
      ensures g[n].children[i] < |g| && Enter(s, n).made[g[n].children[i]] == Aborted
    {
      assert g[n].children[i] in g[n].children;
    }
    GivenUpChildren(g, mode, Enter(s, n), n, |g[n].children|);
  }

  /** A failing leaf `0` makes its parent `1` be given up. */
  lemma GivenUp(g: Graph, now: nat, s: Fields, u: Fields)
    requires |g| == 3 && g[0].children == [] && g[1].children == [0] && LinksIn(g) && Fresh(g, s) &&
             OODate(g[0], false, 0)
    requires u == CompatMake(g, Mode(now, true, {0}), s, 1, 1)
    ensures u.made == [Failed, Aborted, Unmade] && !u.stopped && u.childMade[2] == s.childMade[2] && u.cmtime[2] == 0
    ensures |u.ran| == 1 && u.ran[0].node == 0
  {
    var mode := Mode(now, true, {0});
    var e := Enter(s, 1);
    LeftSet(s.made, 1, BeingMade);
    LeftSet(e.made, 0, BeingMade);
    assert Children(g, mode, Enter(e, 0), 0, 0) == Enter(e, 0);
    var t := CompatMake(g, mode, e, 0, 1);
    assert t == Asked(Finish(g, mode, Enter(e, 0), 0, 1, e.made), 1);
    assert Children(g, mode, e, 1, 0) == e && Children(g, mode, e, 1, 1) == t;
    assert u == Asked(Finish(g, mode, t, 1, 1, s.made), 1);
  }

  /** This happens: `2`, which needs `1`, is made although `1` has been given up. */
  lemma MadeInSpiteOfFailure(g: Graph, now: nat, s: Fields)
    requires |g| == 3 && g[0].children == [] && g[1].children == [0] && g[2].children == [1]
    requires LinksIn(g) && Fresh(g, s)
    requires OODate(g[0], false, 0) && OODate(g[2], false, 0)
    ensures var ran := Targets(g, Mode(now, true, {0}), s, [1, 2]).ran;
            |ran| == 2 && ran[1] == Launch(2, [Failed, Aborted, Unmade], [Failed, Aborted, BeingMade])
  {
    var mode := Mode(now, true, {0});
    var u := CompatMake(g, mode, s, 1, 1);
    GivenUp(g, now, s, u);
    assert [1, 2][..1] == [1] && [1][..0] == [];
    assert Targets(g, mode, s, [1]) == u;
    GivenUpChildrenAreIgnored(g, mode, u, 2, 2);
  }
}
