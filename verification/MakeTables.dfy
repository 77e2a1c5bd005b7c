/** The two tables of a parallel make: the node fields with the queue (make.c), and the jobs
    (job.c), each with the procedures that update it in place. */
module MakeTables {
  import opened MakeGraph
  import opened MakeNodes
  import opened MakeInvariant
  import opened MakeUpdate
  import opened MakeJobs
  import opened MakeResults
  import opened MakeStart

  lemma MarkNone(make: seq<bool>)
    requires forall i :: 0 <= i < |make| ==> !make[i]
    ensures CountTrue(make) == 0 && Marked(make) == {}
  {
    MarkedSize(make);
    assert Marked(make) == {};
  }

  lemma MarkOne(make: seq<bool>, n: nat)
    requires n < |make| && !make[n]
    ensures CountTrue(make[n := true]) == CountTrue(make) + 1 <= |make|
    ensures Marked(make[n := true]) == Marked(make) + {n}
  {
    var make' := make[n := true];
    MarkedSize(make);
    MarkedSize(make');
    CountTrueFits(make');
    assert Marked(make') == Marked(make) + {n};
  }

  lemma {:induction false} CountTrueFits(make: seq<bool>)
    ensures CountTrue(make) <= |make|
  {
    if make != [] { CountTrueFits(make[..|make| - 1]); }
  }

  predicate Reached(g: Graph, m: Marks, examine: seq<nat>, n: nat)
    requires Sized(g, m)
  {
    n < |g| && (m.make[n] || n in examine)
  }

  /** Marking is under way: what is marked or waits for it is needed, and covers the targets
      and the children of what is marked. */
  ghost predicate Expanding(g: Graph, targs: seq<nat>, m: Marks, examine: seq<nat>) {
    && Fresh(g, m) && Refs(g, examine)
    && (forall n: nat :: n in targs ==> Reached(g, m, examine, n))
    && (forall n: nat, c: nat :: n < |g| && m.make[n] && c in g[n].children ==> Reached(g, m, examine, c))
    && (forall x: set<nat> :: Needs(g, targs, x) ==> Covers(m, examine, x))
    && (forall n: nat :: n < |g| && m.make[n] ==> m.mtime[n] == g[n].stat)
    && Distinct(m.queue)
    && (forall n: nat :: n in m.queue <==> n < |g| && m.make[n] && g[n].children == [])
    && m.numNodes == CountTrue(m.make) <= |g|
  }

  predicate Needs(g: Graph, targs: seq<nat>, x: set<nat>) {
    ClosedSet(g, x) && forall n: nat :: n in targs ==> n in x
  }

  predicate Covers(m: Marks, examine: seq<nat>, x: set<nat>) {
    (forall n: nat :: n < |m.make| && m.make[n] ==> n in x) && (forall n: nat :: n in examine ==> n in x)
  }

  lemma ExpandingStarts(g: Graph, targs: seq<nat>, m: Marks)
    requires Fresh(g, m) && Refs(g, targs) && m.make == seq(|g|, _ => false) && m.queue == [] && m.numNodes == 0
    ensures Expanding(g, targs, m, targs)
  {
    MarkNone(m.make);
    forall n: nat | n in targs ensures Reached(g, m, targs, n) { }
  }

  /** A node that is marked already is skipped. */
  lemma ExpandingSkips(g: Graph, targs: seq<nat>, m: Marks, examine: seq<nat>)
    requires Expanding(g, targs, m, examine) && examine != [] && examine[0] < |g| && m.make[examine[0]]
    ensures Expanding(g, targs, m, examine[1..])
  {
    forall x: nat | Reached(g, m, examine, x) ensures Reached(g, m, examine[1..], x) { }
    forall x: set<nat> | Needs(g, targs, x) ensures Covers(m, examine[1..], x) { assert Covers(m, examine, x); }
  }

  /** Node `n` at the head is marked; its children are to be examined in turn. */
  lemma ExpandingMarks(g: Graph, targs: seq<nat>, m: Marks, examine: seq<nat>, n: nat, m': Marks, examine': seq<nat>)
    requires Expanding(g, targs, m, examine) && examine != [] && n == examine[0] && n < |g| && !m.make[n] &&
             LinkedAt(g, n)
    requires m' == m.(make := m.make[n := true], numNodes := m.numNodes + 1, mtime := m.mtime[n := g[n].stat],
                      queue := if g[n].children == [] then m.queue + [n] else m.queue)
    requires Refs(g, examine')
    requires forall c: nat :: c in examine' <==> c in examine[1..] || (c in g[n].children && !m'.make[c])
    ensures Expanding(g, targs, m', examine')
  {
    MarkOne(m.make, n);
    forall x: nat | Reached(g, m, examine, x) ensures Reached(g, m', examine', x) { }
    forall c: nat | c in g[n].children ensures Reached(g, m', examine', c) { }
    forall x: set<nat> | Needs(g, targs, x) ensures Covers(m', examine', x) {
      assert Covers(m, examine, x) && n in examine;
    }
    assert n !in m.queue;
  }

  lemma ExpandingEnds(g: Graph, targs: seq<nat>, m: Marks)
    requires Expanding(g, targs, m, [])
    ensures Expanded(g, targs, m)
  {
    forall n: nat | n in targs ensures n < |g| && m.make[n] { assert Reached(g, m, [], n); }
    forall n: nat, c: nat | n in Marked(m.make) && n < |g| && c in g[n].children ensures c in Marked(m.make) {
      assert Reached(g, m, [], c);
    }
    forall x: set<nat> | ClosedSet(g, x) && forall n: nat :: n in targs ==> n in x ensures Marked(m.make) <= x {
      assert Needs(g, targs, x) && Covers(m, [], x);
    }
  }

  class NodeTable {
    const g: Graph
    const now: nat
    var make: seq<bool>
    var made: seq<Made>
    var unmade: seq<int>
    var childMade: seq<bool>
    var cmtime: seq<nat>
    var mtime: seq<nat>
    var toBeMade: seq<nat>
    var numNodes: int
    ghost var examined: seq<nat>
    ghost var updated: set<nat>

    /** A parsed graph, nothing marked. */
    constructor (g: Graph, now: nat)
      ensures this.g == g && this.now == now && Fresh(g, View())
      ensures make == seq(|g|, _ => false) && toBeMade == []
    {
      this.g, this.now := g, now;
      make, made := seq(|g|, _ => false), seq(|g|, _ => UNMADE);
      unmade := seq(|g|, n requires 0 <= n < |g| => |g[n].children|);
      childMade, cmtime, mtime := seq(|g|, _ => false), seq(|g|, _ => 0), seq(|g|, _ => 0);
      toBeMade, numNodes, examined, updated := [], 0, [], {};
    }

    ghost function View(): Marks
      reads this
    {
      Marks(make, made, unmade, childMade, cmtime, mtime, toBeMade, numNodes, examined, updated)
    }

    /** Mark the targets and everything they depend on; queue the leaves. */
    method ExpandUse(targs: seq<nat>)
      requires Linked(g) && Fresh(g, View()) && make == seq(|g|, _ => false) && toBeMade == [] && Refs(g, targs)
      modifies this
      ensures Expanded(g, targs, View())
    {
      var examine := targs;
      numNodes := 0;
      ExpandingStarts(g, targs, View());
      while examine != []
        invariant Expanding(g, targs, View(), examine)
        decreases |g| - numNodes, |examine|
      {
        var n := examine[0];
        if make[n] {
          ExpandingSkips(g, targs, View(), examine);
          examine := examine[1..];
        } else {
          examine := Mark(targs, n, examine);
        }
      }
      ExpandingEnds(g, targs, View());
    }

    /** Mark a node; queue it if it is a leaf, else go on to its children. */
    method Mark(ghost targs: seq<nat>, n: nat, examine: seq<nat>) returns (l: seq<nat>)
      requires Linked(g) && Expanding(g, targs, View(), examine) && examine != [] && n == examine[0] && n < |g| &&
               !make[n]
      modifies this
      ensures Expanding(g, targs, View(), l) && numNodes == old(numNodes) + 1
    {
      assert LinkedAt(g, n);
      make := make[n := true];
      numNodes := numNodes + 1;
      mtime := mtime[n := g[n].stat];
      l := examine[1..];
      if unmade[n] != 0 {
        l := AddChildren(n, l);
      } else {
        toBeMade := toBeMade + [n];
      }
      ExpandingMarks(g, targs, old(View()), examine, n, View(), l);
    }

    /** Append the children of `n` that are not marked. */
    method AddChildren(n: nat, examine: seq<nat>) returns (l: seq<nat>)
      requires n < |g| && |make| == |g| && Refs(g, g[n].children) && Refs(g, examine)
      ensures Refs(g, l)
      ensures forall c: nat :: c in l <==> c in examine || (c in g[n].children && !make[c])
    {
      l := examine;
      for k := 0 to |g[n].children|
        invariant Refs(g, l)
        invariant forall c: nat :: c in l <==> c in examine || (c in g[n].children[..k] && !make[c])
      {
        var c := g[n].children[k];
        assert g[n].children[..k + 1] == g[n].children[..k] + [c];
        if !make[c] { l := l + [c]; }
      }
      assert g[n].children[..|g[n].children|] == g[n].children;
    }

    /** Update the parents of a node and wake its successors. */
    method UpdateParents(c: nat)
      requires Linked(g) && Sized(g, View()) && c < |g|
      modifies this
      ensures View() == Update(g, now, old(View()), c)
    {
      assert LinkedAt(g, c);
      if made[c] != UPTODATE {
        mtime := mtime[c := if g[c].after == 0 then now else g[c].after];
      }
      assert View() == Restat(g, now, old(View()), c);
      SendParents(c);
      SendSuccessors(c);
      updated := updated + {c};
    }

    method SendParents(c: nat)
      requires Sized(g, View()) && c < |g| && LinkedAt(g, c)
      modifies this
      ensures View() == TellParents(g, old(View()), c, |g[c].parents|)
    {
      for k := 0 to |g[c].parents|
        invariant Sized(g, View()) && View() == TellParents(g, old(View()), c, k)
      {
        SendParent(g[c].parents[k], c);
      }
    }

    /** One child less to wait for; a parent that waits for none is queued. */
    method SendParent(p: nat, c: nat)
      requires Sized(g, View()) && c < |g| && p < |g|
      modifies this
      ensures View() == TellParent(g, old(View()), c, p)
    {
      if make[p] {
        unmade := unmade[p := unmade[p] - 1];
        if !g[c].exec {
          assert childMade[p := childMade[p]] == childMade && cmtime[p := cmtime[p]] == cmtime;
          if made[c] == MADE {
            childMade := childMade[p := true];
            if cmtime[p] < mtime[c] { cmtime := cmtime[p := mtime[c]]; }
          } else {
            TimeStamp(p, c);
          }
        }
        if unmade[p] == 0 { toBeMade := toBeMade + [p]; }
      }
    }

    method SendSuccessors(c: nat)
      requires Sized(g, View()) && c < |g| && LinkedAt(g, c)
      modifies this
      ensures View() == WakeSuccessors(g, old(View()), c, |g[c].succs|)
    {
      for k := 0 to |g[c].succs|
        invariant Sized(g, View()) && View() == WakeSuccessors(g, old(View()), c, k)
      {
        var s := g[c].succs[k];
        if make[s] && unmade[s] == 0 && made[s] == UNMADE && s !in toBeMade {
          toBeMade := toBeMade + [s];
        }
      }
    }

    /** A parent is no older than its youngest child. */
    method TimeStamp(p: nat, c: nat)
      requires p < |cmtime| && c < |mtime|
      modifies `cmtime
      ensures cmtime == old(cmtime)[p := Max(old(cmtime)[p], mtime[c])]
    {
      if mtime[c] > cmtime[p] { cmtime := cmtime[p := mtime[c]]; }
      assert old(cmtime)[p := old(cmtime)[p]] == old(cmtime);
    }

    /** Is the node out of date? If not, its parents learn its time at once. */
    method IsOutOfDate(n: nat) returns (oodate: bool)
      requires Linked(g) && Sized(g, View()) && n < |g|
      modifies `mtime, `cmtime
      ensures oodate <==> IsOODate(g, old(View()), n)
      ensures var m := old(View()).(mtime := if g[n].join || g[n].exec then old(mtime) else old(mtime)[n := g[n].stat]);
              Refs(g, g[n].parents) && View() == if oodate then m else StampParents(g, m, n, |g[n].parents|)
    {
      assert LinkedAt(g, n);
      if !g[n].join && !g[n].exec { mtime := mtime[n := g[n].stat]; }
      if g[n].join {
        oodate := childMade[n];
      } else if g[n].forced || g[n].exec {
        oodate := true;
      } else if mtime[n] < cmtime[n] || (cmtime[n] == 0 && (mtime[n] == 0 || g[n].doubleDep)) {
        oodate := true;
      } else {
        oodate := false;
      }
      if !oodate {
        ghost var m := View();
        for k := 0 to |g[n].parents|
          invariant Sized(g, View()) && View() == StampParents(g, m, n, k) && mtime == m.mtime
        {
          TimeStamp(g[n].parents[k], n);
        }
      }
    }

    /** Is there a predecessor that is to be made and is not made yet? */
    method PredecessorPending(n: nat) returns (pending: bool)
      requires Linked(g) && Sized(g, View()) && n < |g|
      ensures pending <==> Blocked(g, View(), n)
    {
      assert LinkedAt(g, n);
      pending := false;
      for k := 0 to |g[n].preds|
        invariant forall i :: 0 <= i < k ==> !Blocks(View(), g[n].preds[i])
      {
        var p := g[n].preds[k];
        if make[p] && made[p] == UNMADE {
          assert Blocks(View(), p) && p in g[n].preds;
          return true;
        }
      }
    }

    /** Take the next node off the queue. */
    method Take() returns (n: nat)
      requires toBeMade != []
      modifies this
      ensures n == old(toBeMade)[0] && View() == Dequeue(old(View()))
    {
      n := toBeMade[0];
      toBeMade := toBeMade[1..];
    }

    /** The node passes examination; is it out of date? */
    method PassNode(n: nat) returns (oodate: bool)
      requires Linked(g) && Sized(g, View()) && n < |g|
      modifies this
      ensures var m := Pass(g, old(View()), n);
              Refs(g, g[n].parents) && (oodate <==> IsOODate(g, m, n)) &&
              View() == if oodate then m else StampParents(g, m, n, |g[n].parents|)
    {
      numNodes := numNodes - 1;
      examined := examined + [n];
      oodate := IsOutOfDate(n);
    }

    /** What is left to do for a node that is up to date. */
    method UpToDate(n: nat, ghost m: Marks)
      requires Linked(g) && Sized(g, m) && n < |g| && LinkedAt(g, n) && View() == StampParents(g, m, n, |g[n].parents|)
      modifies this
      ensures View() == Settle(g, now, m, n)
    {
      made := made[n := UPTODATE];
      UpdateParents(n);
    }

    method Achieved(n: nat)
      requires Linked(g) && Sized(g, View()) && n < |g|
      modifies this
      ensures View() == Update(g, now, old(View()).(made := old(made)[n := MADE]), n)
    {
      made := made[n := MADE];
      UpdateParents(n);
    }
  }

  class JobTable {
    const cf: Config
    var jobs: seq<Job>
    var stoppedJobs: seq<Job>
    var nJobs: int
    var nLocal: int
    var jobFull: bool
    var errors: nat
    var aborting: bool
    var exited: bool
    ghost var failed: set<nat>
    ghost var launched: seq<nat>
    ghost var lost: seq<nat>

    /** `Job_Init`. */
    constructor (cf: Config)
      ensures this.cf == cf && Idle(View())
    {
      this.cf := cf;
      jobs, stoppedJobs, nJobs, nLocal, jobFull := [], [], 0, 0, false;
      errors, aborting, exited, failed, launched, lost := 0, false, false, {}, [], [];
    }

    ghost function View(): Pool
      reads this
    {
      Pool(jobs, stoppedJobs, nJobs, nLocal, jobFull, errors, aborting, exited, failed, launched, lost)
    }

    method JobExec(job: Job)
      modifies this
      ensures View() == Exec(cf, old(View()), job)
    {
      if job.file.Open? { launched := launched + [job.node]; } else { lost := lost + [job.node]; }
      nLocal := nLocal + 1;
      nJobs := nJobs + 1;
      jobs := jobs + [job.(file := if job.file.Open? then Given else Missing)];
      if nJobs == cf.maxJobs { jobFull := true; }
    }

    method JobContinue(job: Job)
      modifies this
      ensures View() == Continue(cf, old(View()), job)
    {
      jobs := jobs + [job];
      nJobs := nJobs + 1;
      nLocal := nLocal + 1;
      if nJobs == cf.maxJobs { jobFull := true; }
    }

    /** The `k`-th job leaves the table. */
    method Leave(k: nat) returns (job: Job)
      requires k < |jobs|
      modifies this
      ensures job == old(jobs)[k]
      ensures View() == Released(old(View()), k)
    {
      job := jobs[k];
      jobs := Without(jobs, k);
      nJobs := nJobs - 1;
      jobFull := false;
      nLocal := nLocal - 1;
    }

    /** Hold a job at the front of the stopped ones. */
    method HoldFront(job: Job)
      modifies this
      ensures View() == Hold(old(View()), job)
    {
      stoppedJobs := [job] + stoppedJobs;
      jobFull := true;
    }

    method StopLast(job: Job)
      modifies this
      ensures View() == old(View()).(stopped := old(stoppedJobs) + [job])
    {
      stoppedJobs := stoppedJobs + [job];
    }

    method TakeStopped() returns (job: Job)
      requires stoppedJobs != []
      modifies this
      ensures job == old(stoppedJobs)[0] && View() == old(View()).(stopped := old(stoppedJobs)[1..])
    {
      job := stoppedJobs[0];
      stoppedJobs := stoppedJobs[1..];
    }

    method CountError(n: nat)
      modifies this
      ensures View() == old(View()).(errors := old(errors) + 1, failed := old(failed) + {n})
    {
      errors := errors + 1;
      failed := failed + {n};
    }

    method CheckAborting()
      modifies this
      ensures View() == CheckAbort(cf, old(View()))
    {
      if errors > 0 && !cf.keepgoing { aborting := true; }
      if aborting && nJobs == 0 { exited := true; }
    }

    ghost method Lose(n: nat)
      modifies `failed
      ensures View() == old(View()).(failed := old(failed) + {n})
    {
      failed := failed + {n};
    }

    method SetFull(full: bool)
      modifies this
      ensures View() == old(View()).(jobFull := full)
    {
      jobFull := full;
    }
  }
}
