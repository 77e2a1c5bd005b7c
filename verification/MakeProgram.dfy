/** The scheduler as a program over the two tables: what make.c and job.c do between them. */
module MakeProgram {
  import opened MakeGraph
  import opened MakeNodes
  import opened MakeInvariant
  import opened MakeUpdate
  import opened MakeExamine
  import opened MakeJobs
  import opened MakeRuns
  import opened MakeSteps
  import opened MakeResults
  import opened MakeStart
  import opened MakeTables

  datatype Status = Ended | Errored | Stopped(gone: bool) | Continued

  lemma ExaminedFits(g: Graph, cf: Config, s: State)
    requires Safe(g, cf, s)
    ensures |s.m.examined| <= |g|
  {
    NumNodesCounts(g, cf, s);
    CountTrueFits(s.m.make);
  }

  /** Each look at the queue examines a node or drops one. */
  lemma ExamineShrinks(g: Graph, cf: Config, s: State)
    requires Safe(g, cf, s) && (forall x :: x in s.m.queue ==> x < |g|)
    requires !s.t.exited && !JobFull(s.t) && s.m.queue != []
    ensures var m := Examine(g, cf, s).m;
            |m.examined| == |s.m.examined| + 1 || (m.examined == s.m.examined && |m.queue| == |s.m.queue| - 1)
  {
    var n := s.m.queue[0];
    assert Ready(g, s.m, n);
    if !Blocked(g, s.m, n) {
      PassKeeps(g, cf.now, s.m, n);
      var m := Pass(g, Dequeue(s.m), n);
      if !IsOODate(g, m, n) {
        SettleKeeps(g, cf.now, m, n);
      } else if !g[n].runs {
        UpdateKeeps(g, cf.now, m, n, UNMADE);
        assert Ruled(g, cf.now, m, n);
        assert m.made[n := UNMADE] == m.made;
      }
    }
  }

  lemma {:induction false} RunOneMore(g: Graph, cf: Config, s: State, acts: seq<Act>, a: Act)
    requires Safe(g, cf, s)
    ensures Run(g, cf, s, acts + [a]) == Step(g, cf, Run(g, cf, s, acts), a)
    decreases acts
  {
    if acts == [] {
      assert [a][1..] == [] && acts + [a] == [a];
    } else {
      assert (acts + [a])[1..] == acts[1..] + [a];
      RunOneMore(g, cf, Step(g, cf, s, acts[0]), acts[1..], a);
    }
  }

  class Maker {
    const g: Graph
    const cf: Config
    const nodes: NodeTable
    const table: JobTable

    constructor (g: Graph, cf: Config)
      ensures this.g == g && this.cf == cf && Owns() && fresh(nodes) && fresh(table)
      ensures Fresh(g, nodes.View()) && Idle(table.View()) && nodes.make == seq(|g|, _ => false) && nodes.toBeMade == []
    {
      this.g, this.cf := g, cf;
      nodes := new NodeTable(g, cf.now);
      table := new JobTable(cf);
    }

    ghost predicate Owns() {
      nodes.g == g && nodes.now == cf.now && table.cf == cf
    }

    ghost function View(): State
      reads nodes, table
    {
      State(nodes.View(), table.View())
    }

    // ----- make.c

    /** Start as many jobs as possible. */
    method MakeStartJobs(ghost acts0: seq<Act>, ghost s0: State) returns (ghost acts: seq<Act>)
      requires Owns() && Safe(g, cf, s0) && View() == Run(g, cf, s0, acts0)
      modifies nodes, table
      ensures View() == Run(g, cf, s0, acts)
      ensures table.exited || table.aborting || table.jobFull || nodes.toBeMade == []
    {
      acts := acts0;
      ExaminedFits(g, cf, View());
      while !table.exited && !table.aborting && !table.jobFull && nodes.toBeMade != []
        invariant View() == Run(g, cf, s0, acts)
        decreases |g| - |nodes.examined|, |nodes.toBeMade|
      {
        SafeRefs(g, cf, View());
        ExamineShrinks(g, cf, View());
        ExamineOne();
        RunOneMore(g, cf, s0, acts, Look);
        acts := acts + [Look];
        ExaminedFits(g, cf, View());
      }
    }

    /** Take a node off the queue; examine it unless a predecessor blocks it. */
    method ExamineOne()
      requires Owns() && Linked(g) && Sized(g, nodes.View()) && (forall x :: x in nodes.toBeMade ==> x < |g|)
      requires !table.exited && !table.aborting && !table.jobFull && nodes.toBeMade != []
      modifies nodes, table
      ensures View() == Examine(g, cf, old(View()))
    {
      assert nodes.toBeMade[0] in nodes.toBeMade;
      var n := nodes.Take();
      var pending := nodes.PredecessorPending(n);
      assert Blocked(g, nodes.View(), n) <==> Blocked(g, old(nodes.View()), n);
      if !pending { ExamineNode(n); }
    }

    /** The node is processed: a job is started, or it is up to date. */
    method ExamineNode(n: nat)
      requires Owns() && Linked(g) && Sized(g, nodes.View()) && n < |g|
      modifies nodes, table
      ensures var m := Pass(g, old(nodes.View()), n);
              View() == if IsOODate(g, m, n) then Start(g, cf, old(View()).(m := m), n)
                        else old(View()).(m := Settle(g, cf.now, m, n))
    {
      ghost var m := Pass(g, nodes.View(), n);
      var oodate := nodes.PassNode(n);
      if oodate {
        JobStart(n);
      } else {
        assert LinkedAt(g, n);
        nodes.UpToDate(n, m);
      }
    }

    // ----- job.c

    method JobStart(n: nat)
      requires Owns() && Linked(g) && Sized(g, nodes.View()) && n < |g|
      modifies nodes, table
      ensures View() == Start(g, cf, old(View()), n)
    {
      if !g[n].runs {
        if !table.aborting { nodes.UpdateParents(n); }
      } else if table.nLocal >= cf.maxLocal && cf.maxLocal != 0 {
        table.SetFull(true);
        table.StopLast(Job(n, true, false, Open));
      } else {
        if table.nLocal >= cf.maxLocal { table.SetFull(true); }
        table.JobExec(Job(n, false, false, Open));
      }
    }

    /** The stopped job is told to go on, started from scratch, or held again. */
    method JobRestart(job: Job)
      requires Owns() && Sized(g, nodes.View())
      modifies nodes, table
      ensures View() == Restart(g, cf, old(View()), job)
      decreases |table.stoppedJobs|, 3
    {
      if job.restart {
        if table.nLocal >= cf.maxLocal { table.HoldFront(job); } else { table.JobExec(job); }
      } else if table.nLocal < cf.maxLocal && table.nJobs != cf.maxJobs {
        JobFinish(job, if job.gone then Errored else Continued);
      } else {
        table.HoldFront(job);
      }
    }

    method JobRestartJobs()
      requires Owns() && Sized(g, nodes.View())
      modifies nodes, table
      ensures View() == RestartJobs(g, cf, old(View()))
      decreases |table.stoppedJobs|, 0
    {
      while !table.exited && !table.jobFull && table.stoppedJobs != []
        invariant Sized(g, nodes.View()) && (table.jobFull || |table.stoppedJobs| <= |old(table.stoppedJobs)|)
        invariant RestartJobs(g, cf, View()) == RestartJobs(g, cf, old(View()))
        decreases !table.jobFull, |table.stoppedJobs|
      {
        var job := table.TakeStopped();
        JobRestart(job);
      }
    }

    /** A job ended, failed, stopped or went on; it is in neither list. */
    method JobFinish(job: Job, status: Status)
      requires Owns() && Sized(g, nodes.View()) && (status.Ended? ==> Linked(g) && job.node < |g|)
      modifies nodes, table
      ensures status.Ended? ==> View() == Succeed(g, cf, old(View()), job)
      ensures status.Errored? ==> View() == Fail(g, cf, old(View()), job)
      ensures status.Stopped? ==>
                var stopped := old(table.stoppedJobs) + [job.(gone := status.gone)];
                View() == old(View()).(t := old(table.View()).(stopped := stopped))
      ensures status.Continued? ==> View() == old(View()).(t := Continue(cf, old(table.View()), job))
      decreases |table.stoppedJobs|, 2
    {
      match status
      case Stopped(gone) => table.StopLast(job.(gone := gone));
      case Continued => table.JobContinue(job);
      case Ended => JobEnded(job);
      case Errored =>
        table.CountError(job.node);
        JobEnd();
    }

    method JobEnded(job: Job)
      requires Owns() && Linked(g) && Sized(g, nodes.View()) && job.node < |g|
      modifies nodes, table
      ensures View() == Succeed(g, cf, old(View()), job)
      decreases |table.stoppedJobs|, 1, 1
    {
      if !table.aborting { nodes.Achieved(job.node); } else { table.Lose(job.node); }
      assert View() == Credit(g, cf, old(View()), job.node);
      JobEnd();
    }

    /** After a job has ended: start what was held, and see whether to go on. */
    method JobEnd()
      requires Owns() && Sized(g, nodes.View())
      modifies nodes, table
      ensures var s := RestartJobs(g, cf, old(View())); View() == s.(t := CheckAbort(cf, s.t))
      decreases |table.stoppedJobs|, 1, 0
    {
      JobRestartJobs();
      table.CheckAborting();
    }

    /** One report of a child. */
    method JobCatchChild(e: Event)
      requires Owns() && Linked(g) && Sized(g, nodes.View()) && forall j :: j in table.jobs ==> j.node < |g|
      modifies nodes, table
      ensures View() == Catch(g, cf, old(View()), e)
    {
      hide Succeed, Fail;
      if !table.exited && table.nLocal != 0 && e.k < |table.jobs| {
        var job := table.Leave(e.k);
        match Reported(job, e)
        case Exits(_) => JobFinish(job, Ended);
        case Fails(_) => JobFinish(job, Errored);
        case Stops(_, gone) => JobFinish(job, Stopped(gone));
      }
    }

    /** All reports of a batch. */
    method JobCatchChildren(batch: seq<Event>, ghost acts0: seq<Act>, ghost s0: State) returns (ghost acts: seq<Act>)
      requires Owns() && Safe(g, cf, s0) && View() == Run(g, cf, s0, acts0)
      modifies nodes, table
      ensures View() == Run(g, cf, s0, acts)
    {
      acts := acts0;
      for j := 0 to |batch|
        invariant View() == Run(g, cf, s0, acts)
      {
        SafeRefs(g, cf, View());
        JobCatchChild(batch[j]);
        RunOneMore(g, cf, s0, acts, Report(batch[j]));
        acts := acts + [Report(batch[j])];
      }
    }

    method JobEmpty() returns (empty: bool)
      requires Owns() && Sized(g, nodes.View())
      modifies nodes, table
      ensures (View(), empty) == Empty(g, cf, old(View()))
    {
      if table.nJobs == 0 {
        if table.stoppedJobs != [] && !table.aborting {
          table.SetFull(false);
          JobRestartJobs();
          return false;
        }
        return true;
      }
      return false;
    }

    /** Make the targets. `reports` is what the children report, batch by batch. The run
        is over when the table is empty; it can also end on an error or, here, when
        there are no more reports. */
    method MakeRun(targs: seq<nat>, reports: seq<seq<Event>>)
      returns (over: bool, ghost s0: State, ghost acts: seq<Act>)
      requires Owns() && Linked(g) && Refs(g, targs) && cf.maxJobs > 0
      requires Fresh(g, nodes.View()) && nodes.make == seq(|g|, _ => false) && nodes.toBeMade == [] &&
               Idle(table.View())
      modifies nodes, table
      ensures Expanded(g, targs, s0.m) && Idle(s0.t) && Safe(g, cf, s0)
      ensures View() == Run(g, cf, s0, acts)
      ensures over && table.errors == 0 ==>
                Quiet(View()) &&
                (nodes.numNodes == 0
                 <==> (exists rank :: Ranked(g, nodes.make, rank)) && forall p, n :: !Silent(g, nodes.View(), p, n))
    {
      nodes.ExpandUse(targs);
      s0 := View();
      ExpandedSafe(g, cf, targs, s0);
      acts := MakeStartJobs([], s0);
      over, acts := MakeLoop(reports, acts, s0);
      if over && table.errors == 0 { CompleteIff(g, cf, View()); }
    }

    /** The main loop: catch what the children report, and start jobs. */
    method MakeLoop(reports: seq<seq<Event>>, ghost acts0: seq<Act>, ghost s0: State)
      returns (over: bool, ghost acts: seq<Act>)
      requires Owns() && Safe(g, cf, s0) && View() == Run(g, cf, s0, acts0)
      requires table.exited || table.aborting || table.jobFull || nodes.toBeMade == []
      modifies nodes, table
      ensures View() == Run(g, cf, s0, acts)
      ensures over && table.errors == 0 ==> Quiet(View())
    {
      over, acts := false, acts0;
      for i := 0 to |reports|
        invariant View() == Run(g, cf, s0, acts)
        invariant table.exited || table.aborting || table.jobFull || nodes.toBeMade == []
      {
        over, acts := MakePoll(acts, s0);
        if over || table.exited { return; }
        acts := JobCatchChildren(reports[i], acts, s0);
        acts := MakeStartJobs(acts, s0);
      }
      over, acts := MakePoll(acts, s0);
    }

    method MakePoll(ghost acts0: seq<Act>, ghost s0: State) returns (over: bool, ghost acts: seq<Act>)
      requires Owns() && Safe(g, cf, s0) && View() == Run(g, cf, s0, acts0)
      requires table.exited || table.aborting || table.jobFull || nodes.toBeMade == []
      modifies nodes, table
      ensures View() == Run(g, cf, s0, acts)
      ensures over && table.errors == 0 ==> Quiet(View())
    {
      RunOneMore(g, cf, s0, acts0, Poll);
      over := JobEmpty();
      acts := acts0 + [Poll];
    }
  }
}
