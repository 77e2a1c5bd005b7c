/** The depth-first make as it is written: a recursion that sets the fields of shared nodes
    (bsdmake/compat.c). */
module CompatProgram {
  import opened MakeGraph
  import opened CompatNodes
  import opened CompatSafety

  class Compat {
    const g: Graph
    const mode: Mode
    var make: seq<bool>
    var made: seq<Stage>
    var childMade: seq<bool>
    var cmtime: seq<nat>
    var mtime: seq<nat>
    var stopped: bool
    ghost var ran: seq<Launch>
    ghost var seen: seq<nat>

    /** The nodes below the targets have been marked, and their files looked at. */
    constructor (g: Graph, mode: Mode, marks: seq<bool>)
      requires |marks| == |g|
      ensures this.g == g && this.mode == mode && Fresh(g, View()) && make == marks
    {
      this.g, this.mode, make := g, mode, marks;
      made, childMade, cmtime := seq(|g|, _ => Unmade), seq(|g|, _ => false), seq(|g|, _ => 0);
      mtime := seq(|g|, _ => 0);
      stopped, ran, seen := false, [], seq(|g|, _ => 0);
    }

    ghost function View(): Fields
      reads this
    {
      Fields(make, made, childMade, cmtime, mtime, stopped, ran, seen)
    }

    /** `Make_TimeStamp`. */
    method TimeStamp(p: nat, n: nat)
      requires Fits(g, View()) && n < |g| && p < |g|
      modifies this
      ensures View() == Stamp(old(View()), n, p)
    {
      assert cmtime[p := cmtime[p]] == cmtime;
      if cmtime[p] < mtime[n] { cmtime := cmtime[p := mtime[n]]; }
    }

    /** `Make_OODate`. */
    method IsOODate(n: nat) returns (oodate: bool)
      requires n < |g| && LinkedAt(g, n) && Fits(g, View())
      modifies this
      ensures var s := Look(g, old(View()), n);
              oodate == OutOfDate(g, s, n) && View() == if oodate then s else StampAll(g, s, n, |g[n].parents|)
    {
      var x := g[n];
      if !x.join && !x.exec { mtime := mtime[n := x.stat]; }
      if x.join {
        oodate := childMade[n];
      } else if x.forced || x.exec {
        oodate := true;
      } else {
        oodate := mtime[n] < cmtime[n] || (cmtime[n] == 0 && (mtime[n] == 0 || x.doubleDep));
      }
      if !oodate {
        ghost var s := View();
        for k := 0 to |x.parents|
          invariant Fits(g, View()) && View() == StampAll(g, s, n, k)
        {
          TimeStamp(x.parents[k], n);
        }
      }
    }

    method ReportMade(n: nat, p: nat)
      requires Fits(g, View()) && n < |g| && p < |g|
      modifies this
      ensures View() == TellMade(g, old(View()), n, p)
    {
      if !g[n].exec {
        childMade := childMade[p := true];
        TimeStamp(p, n);
      }
    }

    method CompatMake(n: nat, p: nat)
      requires LinksIn(g) && Fits(g, View()) && n < |g| && p < |g|
      modifies this
      ensures View() == CompatNodes.CompatMake(g, mode, old(View()), n, p)
      decreases Left(made), 1
    {
      if stopped { return; }
      ghost var s := View();
      if made[n] == Unmade {
        LeftSet(made, n, BeingMade);
        make := make[n := true];
        made := made[n := BeingMade];
        MakeChildren(n);
        if stopped { return; }
        FinishNode(n, p, s.made);
      } else {
        AgainNode(n, p);
      }
      seen := seen[p := seen[p] + 1];
    }

    method MakeChildren(n: nat)
      requires LinksIn(g) && Fits(g, View()) && n < |g|
      modifies this
      ensures View() == Children(g, mode, old(View()), n, |g[n].children|)
      decreases Left(made), 2
    {
      hide CompatNodes.CompatMake;
      for k := 0 to |g[n].children|
        invariant Fits(g, View()) && View() == Children(g, mode, old(View()), n, k)
      {
        assert LinkedAt(g, n) && g[n].children[k] < |g|;
        CompatMake(g[n].children[k], n);
      }
    }

    method FinishNode(n: nat, p: nat, ghost before: seq<Stage>)
      requires LinksIn(g) && Fits(g, View()) && n < |g| && p < |g|
      modifies this
      ensures View() == Finish(g, mode, old(View()), n, p, before)
    {
      if !make[n] {
        made := made[n := Aborted];
        make := make[p := false];
        return;
      }
      assert LinkedAt(g, n);
      var oodate := IsOODate(n);
      if !oodate {
        made := made[n := UpToDate];
      } else {
        RunNode(n, p, before);
      }
    }

    method RunNode(n: nat, p: nat, ghost before: seq<Stage>)
      requires Fits(g, View()) && n < |g| && p < |g|
      modifies this
      ensures View() == RunCommands(g, mode, old(View()), n, p, before)
    {
      ran := ran + [Launch(n, before, made)];
      if n in mode.fails {
        made := made[n := Failed];
        if mode.keepgoing {
          make := make[p := false];
        } else {
          stopped := true;
        }
      } else {
        made := made[n := Made];
        mtime := mtime[n := if g[n].after == 0 then mode.now else g[n].after];
        if cmtime[n] > mtime[n] { mtime := mtime[n := cmtime[n]]; }
        assert mtime == old(mtime)[n := Remade(g[n], mode.now, cmtime[n])];
        ReportMade(n, p);
      }
    }

    method AgainNode(n: nat, p: nat)
      requires Fits(g, View()) && n < |g| && p < |g| && made[n] != Unmade
      modifies this
      ensures View() == Again(g, old(View()), n, p)
    {
      if made[n] == Failed {
        make := make[p := false];
      } else {
        match made[n] {
          case BeingMade =>
            made := made[n := Failed];
            make := make[p := false];
          case Made => ReportMade(n, p);
          case UpToDate => if !g[n].exec { TimeStamp(p, n); }
          case _ =>
        }
      }
    }

    /** `Compat_Run`: each target asks for itself. */
    method CompatRun(targs: seq<nat>)
      requires LinksIn(g) && Fits(g, View()) && Refs(g, targs)
      modifies this
      ensures View() == Targets(g, mode, old(View()), targs)
    {
      for k := 0 to |targs|
        invariant Fits(g, View()) && View() == Targets(g, mode, old(View()), targs[..k])
      {
        assert targs[..k + 1][..k] == targs[..k];
        CompatMake(targs[k], targs[k]);
      }
      assert targs[..|targs|] == targs;
    }
  }
}
