/** How often the commands of a node are started, and whether an empty table gets going again. */
module MakeLaunch {
  import opened MakeGraph
  import opened MakeNodes
  import opened MakeInvariant
  import opened MakeUpdate
  import opened MakeExamine
  import opened MakeJobs
  import opened MakeRuns
  import opened MakeSteps

  /** A job whose command file is still open is to be started from scratch, for the first time. */
  predicate InHand(s: State, job: Job) {
    job.file.Open? ==> job.restart && job.node !in s.t.launched
  }

  /** No shell was given the commands of a node twice, and none those of a job whose command
      file is still open. */
  predicate Once(s: State) {
    && Distinct(s.t.launched)
    && (forall x :: x in s.t.launched ==> x in s.m.examined)
    && (forall i :: 0 <= i < |s.t.stopped| ==> InHand(s, s.t.stopped[i]))
    && (forall i :: 0 <= i < |s.t.jobs| ==> !s.t.jobs[i].file.Open?)
  }

  /** No job carries JOB_RESTART, and none has been without its command file. */
  predicate NoneHeld(t: Pool) {
    && (forall i :: 0 <= i < |t.jobs| ==> !t.jobs[i].restart)
    && (forall i :: 0 <= i < |t.stopped| ==> !t.stopped[i].restart)
    && t.lost == []
  }

  lemma ExecOnce(g: Graph, cf: Config, s: State, job: Job)
    requires Keeps(g, cf, s, {job.node}) && Once(s) && (job.file.Open? ==> job.node !in s.t.launched)
    ensures Once(s.(t := Exec(cf, s.t, job)))
  {
    JobNode(g, cf, s, {job.node}, job.node);
    assert Accounted(s, {job.node}, job.node);
    forall i | 0 <= i < |s.t.stopped| ensures s.t.stopped[i].node != job.node { CountHas(s.t.stopped, i); }
  }

  lemma {:induction false} RestartOnce(g: Graph, cf: Config, s: State, job: Job)
    requires Keeps(g, cf, s, {job.node}) && !s.t.jobFull && Once(s) && InHand(s, job)
    ensures Once(Restart(g, cf, s, job))
    ensures NoneHeld(s.t) && !job.restart ==> NoneHeld(Restart(g, cf, s, job).t)
    decreases |s.t.stopped|, 2
  {
    if job.restart {
      if s.t.nLocal < cf.maxLocal { ExecOnce(g, cf, s, job); }
    } else if s.t.nLocal < cf.maxLocal && s.t.nJobs != cf.maxJobs && job.gone {
      FailOnce(g, cf, s, job);
    }
  }

  lemma {:induction false} RestartJobsOnce(g: Graph, cf: Config, s: State)
    requires Keeps(g, cf, s, {}) && FullForAReason(s.t) && Once(s)
    ensures Once(RestartJobs(g, cf, s))
    ensures NoneHeld(s.t) ==> NoneHeld(RestartJobs(g, cf, s).t)
    decreases |s.t.stopped|, 0
  {
    if !s.t.exited && !s.t.jobFull && s.t.stopped != [] {
      TakeKeeps(g, cf, s);
      var s0 := s.(t := s.t.(stopped := s.t.stopped[1..]));
      RestartKeeps(g, cf, s0, s.t.stopped[0]);
      RestartOnce(g, cf, s0, s.t.stopped[0]);
      var s1 := Restart(g, cf, s0, s.t.stopped[0]);
      if !s1.t.jobFull { RestartJobsOnce(g, cf, s1); }
    }
  }

  lemma {:induction false} FailOnce(g: Graph, cf: Config, s: State, job: Job)
    requires Keeps(g, cf, s, {job.node}) && !s.t.jobFull && Once(s)
    ensures Once(Fail(g, cf, s, job))
    ensures NoneHeld(s.t) ==> NoneHeld(Fail(g, cf, s, job).t)
    decreases |s.t.stopped|, 1
  {
    FailedKeeps(g, cf, s, job, s.t.errors + 1);
    RestartJobsOnce(g, cf, s.(t := s.t.(errors := s.t.errors + 1, failed := s.t.failed + {job.node})));
  }

  lemma SucceedOnce(g: Graph, cf: Config, s: State, job: Job)
    requires Keeps(g, cf, s, {job.node}) && !s.t.jobFull && Once(s)
    ensures job.node < |g| && Once(Succeed(g, cf, s, job))
    ensures NoneHeld(s.t) ==> NoneHeld(Succeed(g, cf, s, job).t)
  {
    var n := job.node;
    JobNode(g, cf, s, {n}, n);
    if s.t.aborting {
      FailedKeeps(g, cf, s, job, s.t.errors);
      RestartJobsOnce(g, cf, s.(t := s.t.(failed := s.t.failed + {n})));
    } else {
      DoneKeeps(g, cf, s, n, MADE);
      UpdateKeeps(g, cf.now, s.m, n, MADE);
      RestartJobsOnce(g, cf, s.(m := Update(g, cf.now, s.m.(made := s.m.made[n := MADE]), n)));
    }
  }

  lemma StopOnce(s: State, job: Job)
    requires Once(s) && !job.file.Open?
    ensures Once(s.(t := s.t.(stopped := s.t.stopped + [job])))
    ensures NoneHeld(s.t) && !job.restart ==> NoneHeld(s.t.(stopped := s.t.stopped + [job]))
  {
  }

  lemma LeaveOnce(s: State, k: nat, t: Pool)
    requires Once(s) && k < |s.t.jobs|
    requires t == Released(s.t, k)
    ensures Once(s.(t := t)) && (NoneHeld(s.t) ==> NoneHeld(t) && !s.t.jobs[k].restart)
  {
  }

  lemma CatchOnce(g: Graph, cf: Config, s: State, e: Event)
    requires Safe(g, cf, s) && Once(s) && forall j :: j in s.t.jobs ==> j.node < |g|
    ensures Once(Catch(g, cf, s, e))
    ensures NoneHeld(s.t) ==> NoneHeld(Catch(g, cf, s, e).t)
  {
    if !s.t.exited && s.t.nLocal != 0 && e.k < |s.t.jobs| {
      var job := s.t.jobs[e.k];
      LeaveKeeps(g, cf, s, e.k);
      var s1 := s.(t := Released(s.t, e.k));
      LeaveOnce(s, e.k, s1.t);
      match Reported(job, e)
      case Exits(_) => SucceedOnce(g, cf, s1, job);
      case Fails(_) => FailOnce(g, cf, s1, job);
      case Stops(_, gone) => StopOnce(s1, job.(gone := gone));
    }
  }

  lemma EmptyOnce(g: Graph, cf: Config, s: State)
    requires Safe(g, cf, s) && Once(s)
    ensures Once(Empty(g, cf, s).0)
    ensures NoneHeld(s.t) ==> NoneHeld(Empty(g, cf, s).0.t)
  {
    if s.t.nJobs == 0 && s.t.stopped != [] && !s.t.aborting {
      var s1 := s.(t := s.t.(jobFull := false));
      forall n: nat ensures Accounted(s1, {}, n) { assert Accounted(s, {}, n); }
      RestartJobsOnce(g, cf, s1);
    }
  }

  lemma MoreExamined(s: State, m: Marks)
    requires Once(s) && forall x :: x in s.m.examined ==> x in m.examined
    ensures Once(s.(m := m))
  {
  }

  lemma ExamineOnce(g: Graph, cf: Config, s: State)
    requires Safe(g, cf, s) && Once(s) && forall x :: x in s.m.queue ==> x < |g|
    ensures Once(Examine(g, cf, s))
    ensures NoneHeld(s.t) && (cf.maxLocal == 0 || cf.maxLocal >= cf.maxJobs) ==> NoneHeld(Examine(g, cf, s).t)
  {
    hide Once, NoneHeld, Start, Busy;
    if !s.t.exited && !JobFull(s.t) && s.m.queue != [] {
      var n := s.m.queue[0];
      assert Ready(g, s.m, n);
      if Blocked(g, s.m, n) {
        MoreExamined(s, Dequeue(s.m));
      } else {
        PassKeeps(g, cf.now, s.m, n);
        var m := Pass(g, Dequeue(s.m), n);
        if !IsOODate(g, m, n) {
          SettleKeeps(g, cf.now, m, n);
          MoreExamined(s, Settle(g, cf.now, m, n));
        } else if !g[n].runs {
          QuietOnce(g, cf, s, m, n);
        } else {
          StartOnce(g, cf, s, n, m);
        }
      }
    }
  }

  lemma QuietOnce(g: Graph, cf: Config, s: State, m: Marks, n: nat)
    requires Linked(g) && Inv(g, cf.now, m) && Busy(g, m, {n}) && n in m.examined && n !in m.updated && n < |g|
    requires m.examined == s.m.examined + [n] && Once(s) && IsOODate(g, m, n) && !g[n].runs
    ensures Once(Start(g, cf, s.(m := m), n)) && Start(g, cf, s.(m := m), n).t == s.t
  {
    hide Once;
    assert Ruled(g, cf.now, m, n);
    UpdateKeeps(g, cf.now, m, n, UNMADE);
    assert m.made[n := UNMADE] == m.made;
    MoreExamined(s, m);
    MoreExamined(s, Update(g, cf.now, m, n));
  }

  lemma StartOnce(g: Graph, cf: Config, s: State, n: nat, m: Marks)
    requires Safe(g, cf, s) && Once(s) && n !in s.m.examined && !JobFull(s.t) && n < |g| && g[n].runs && Sized(g, m)
    requires m.examined == s.m.examined + [n]
    ensures Once(Start(g, cf, s.(m := m), n))
    ensures NoneHeld(s.t) && (cf.maxLocal == 0 || cf.maxLocal >= cf.maxJobs) ==> NoneHeld(Start(g, cf, s.(m := m), n).t)
  {
    forall i | 0 <= i < |s.t.stopped| ensures s.t.stopped[i].node != n {
      CountHas(s.t.stopped, i);
      JobNode(g, cf, s, {}, s.t.stopped[i].node);
    }
    assert n !in s.t.launched;
  }

  lemma StepOnce(g: Graph, cf: Config, s: State, a: Act)
    requires Safe(g, cf, s) && Once(s)
    ensures Once(Step(g, cf, s, a))
    ensures NoneHeld(s.t) && (cf.maxLocal == 0 || cf.maxLocal >= cf.maxJobs) ==> NoneHeld(Step(g, cf, s, a).t)
  {
    SafeRefs(g, cf, s);
    match a
    case Look => ExamineOnce(g, cf, s);
    case Report(e) => CatchOnce(g, cf, s, e);
    case Poll => EmptyOnce(g, cf, s);
  }

  /** MAIN: in every run of every graph, whatever the limits, the commands of a node are given to a
      shell at most once; if as many jobs may run locally as may run at all, no job is ever held. */
  lemma {:induction false} RunsOnce(g: Graph, cf: Config, s: State, acts: seq<Act>)
    requires Safe(g, cf, s) && Once(s)
    ensures Once(Run(g, cf, s, acts))
    ensures NoneHeld(s.t) && (cf.maxLocal == 0 || cf.maxLocal >= cf.maxJobs) ==> NoneHeld(Run(g, cf, s, acts).t)
    decreases acts
  {
    if acts != [] {
      StepOnce(g, cf, s, acts[0]);
      RunsOnce(g, cf, Step(g, cf, s, acts[0]), acts[1..]);
    }
  }

  // ----- Does `Job_Empty` get held jobs going?

  lemma {:induction false} RestartJobsGrow(g: Graph, cf: Config, s: State)
    requires Sized(g, s.m)
    ensures var s' := RestartJobs(g, cf, s);
            |s'.t.jobs| >= |s.t.jobs| && s'.t.errors >= s.t.errors && s.t.failed <= s'.t.failed
    decreases |s.t.stopped|, 0
  {
    if !s.t.exited && !s.t.jobFull && s.t.stopped != [] {
      var s0 := s.(t := s.t.(stopped := s.t.stopped[1..]));
      RestartGrow(g, cf, s0, s.t.stopped[0]);
      var s1 := Restart(g, cf, s0, s.t.stopped[0]);
      if !s1.t.jobFull { RestartJobsGrow(g, cf, s1); }
    }
  }

  /** A job taken off the list is started or fails, or is held again. */
  lemma {:induction false} RestartGrow(g: Graph, cf: Config, s: State, job: Job)
    requires Sized(g, s.m)
    ensures var s' := Restart(g, cf, s, job);
            |s'.t.jobs| >= |s.t.jobs| && s'.t.errors >= s.t.errors && s.t.failed <= s'.t.failed &&
            (s'.t == Hold(s.t, job) || |s'.t.jobs| > |s.t.jobs| || s'.t.errors > s.t.errors)
    decreases |s.t.stopped|, 1
  {
    if !job.restart && s.t.nLocal < cf.maxLocal && s.t.nJobs != cf.maxJobs && job.gone {
      RestartJobsGrow(g, cf, s.(t := s.t.(errors := s.t.errors + 1, failed := s.t.failed + {job.node})));
    }
  }

  /** An empty table with jobs held back gets going again exactly when local jobs are allowed:
      with `maxLocal` 0 the main loop goes round for ever. */
  lemma PollProgress(g: Graph, cf: Config, s: State)
    requires Safe(g, cf, s) && s.t.nJobs == 0 && s.t.stopped != [] && !s.t.aborting && !s.t.exited
    ensures var t := Empty(g, cf, s).0.t;
            && (t.jobs != [] || t.errors > s.t.errors <==> cf.maxLocal > 0)
            && (cf.maxLocal == 0 ==> t == s.t.(jobFull := true))
  {
    var s1 := s.(t := s.t.(jobFull := false));
    var s0 := s1.(t := s1.t.(stopped := s1.t.stopped[1..]));
    var job := s1.t.stopped[0];
    RestartGrow(g, cf, s0, job);
    var s2 := Restart(g, cf, s0, job);
    if !s2.t.jobFull { RestartJobsGrow(g, cf, s2); }
    assert [job] + s1.t.stopped[1..] == s1.t.stopped;
  }
}
