/** What an error does to a parallel make, with and without -k, and what a report does to its node. */
module MakeErrors {
  import opened MakeGraph
  import opened MakeNodes
  import opened MakeInvariant
  import opened MakeUpdate
  import opened MakeJobs
  import opened MakeExamine
  import opened MakeRuns
  import opened MakeSteps
  import opened MakeOrder
  import opened MakeLaunch
  import opened MakeStart
  import opened MakeOnce

  /** Between reports: an error makes the scheduler abort unless it is told to keep going, and it
      exits only when it aborts and nothing runs any more. */
  predicate Settled(cf: Config, t: Pool) {
    (t.aborting <==> t.errors > 0 && !cf.keepgoing) && (t.exited ==> t.aborting && t.nJobs == 0)
  }

  /** While a report is worked on, the last error may not have been looked at. */
  predicate Unsettled(cf: Config, t: Pool) {
    (t.aborting ==> t.errors > 0 && !cf.keepgoing) && (t.exited ==> t.aborting && t.nJobs == 0)
  }

  lemma CheckSettles(cf: Config, t: Pool)
    requires Unsettled(cf, t)
    ensures Settled(cf, CheckAbort(cf, t))
  {
  }

  lemma {:induction false} RestartErrors(g: Graph, cf: Config, s: State, job: Job)
    requires Sized(g, s.m) && Unsettled(cf, s.t) && !s.t.exited
    ensures Unsettled(cf, Restart(g, cf, s, job).t)
    ensures Settled(cf, s.t) ==> Settled(cf, Restart(g, cf, s, job).t)
    decreases |s.t.stopped|, 2
  {
    if !job.restart && s.t.nLocal < cf.maxLocal && s.t.nJobs != cf.maxJobs && job.gone { FailErrors(g, cf, s, job); }
  }

  lemma {:induction false} RestartJobsErrors(g: Graph, cf: Config, s: State)
    requires Sized(g, s.m) && Unsettled(cf, s.t)
    ensures Unsettled(cf, RestartJobs(g, cf, s).t)
    ensures Settled(cf, s.t) ==> Settled(cf, RestartJobs(g, cf, s).t)
    decreases |s.t.stopped|, 0
  {
    if !s.t.exited && !s.t.jobFull && s.t.stopped != [] {
      var s0 := s.(t := s.t.(stopped := s.t.stopped[1..]));
      RestartErrors(g, cf, s0, s.t.stopped[0]);
      var s1 := Restart(g, cf, s0, s.t.stopped[0]);
      if !s1.t.jobFull { RestartJobsErrors(g, cf, s1); }
    }
  }

  lemma {:induction false} FailErrors(g: Graph, cf: Config, s: State, job: Job)
    requires Sized(g, s.m) && Unsettled(cf, s.t) && !s.t.exited
    ensures Settled(cf, Fail(g, cf, s, job).t)
    decreases |s.t.stopped|, 1
  {
    var s0 := s.(t := s.t.(errors := s.t.errors + 1, failed := s.t.failed + {job.node}));
    RestartJobsErrors(g, cf, s0);
    CheckSettles(cf, RestartJobs(g, cf, s0).t);
  }

  lemma StepErrors(g: Graph, cf: Config, s: State, a: Act)
    requires Safe(g, cf, s) && Settled(cf, s.t)
    ensures Settled(cf, Step(g, cf, s, a).t)
  {
    SafeRefs(g, cf, s);
    match a
    case Look =>
    case Poll => RestartJobsErrors(g, cf, s.(t := s.t.(jobFull := false)));
    case Report(e) =>
      if !s.t.exited && s.t.nLocal != 0 && e.k < |s.t.jobs| {
        var job := s.t.jobs[e.k];
        var s1 := s.(t := Released(s.t, e.k));
        match Reported(job, e)
        case Exits(_) =>
          RestartJobsErrors(g, cf, Credit(g, cf, s1, job.node));
          CheckSettles(cf, RestartJobs(g, cf, Credit(g, cf, s1, job.node)).t);
        case Fails(_) => FailErrors(g, cf, s1, job);
        case Stops(_, _) =>
      }
  }

  /** MAIN: at any time in any run: the scheduler is aborting exactly if there has been an error and
      it is not told to keep going (-k); it has exited only if it was aborting and no job runs. */
  lemma {:induction false} ErrorsIff(g: Graph, cf: Config, s: State, acts: seq<Act>)
    requires Safe(g, cf, s) && Settled(cf, s.t)
    ensures var t := Run(g, cf, s, acts).t;
            (t.aborting <==> t.errors > 0 && !cf.keepgoing) && (t.exited ==> t.aborting && t.jobs == [])
    decreases acts
  {
    if acts != [] {
      StepErrors(g, cf, s, acts[0]);
      ErrorsIff(g, cf, Step(g, cf, s, acts[0]), acts[1..]);
    }
  }

  /** Every run begins without errors. */
  lemma IdleSettled(cf: Config, t: Pool)
    requires Idle(t)
    ensures Settled(cf, t)
  {
  }

  /** An aborting scheduler examines nothing. */
  lemma AbortingLooksAway(g: Graph, cf: Config, s: State)
    requires Safe(g, cf, s) && s.t.aborting
    ensures Step(g, cf, s, Look) == s
  {
    SafeRefs(g, cf, s);
  }

  /** The main loop is over exactly if no job runs and none waits to go on, unless the program is giving
      up; looking has no effect then. */
  lemma EndsIff(g: Graph, cf: Config, s: State)
    requires Safe(g, cf, s)
    ensures var (s', over) := Empty(g, cf, s);
            (over <==> s.t.jobs == [] && (s.t.aborting || s.t.stopped == [])) && (over ==> s' == s)
  {
    assert s.t.nJobs == |s.t.jobs|;
  }

  // ----- What a report does to the node of the job.

  /** MAIN: the end of a job makes its node if nothing is being aborted; its failure never does, and
      is counted. A scheduler that is aborting when its last job has ended or failed exits. */
  lemma ReportIff(g: Graph, cf: Config, s: State, e: Event)
    requires Safe(g, cf, s) && !s.t.exited && e.k < |s.t.jobs| && !s.t.jobs[e.k].file.Missing?
    ensures var n, s' := s.t.jobs[e.k].node, Step(g, cf, s, Report(e));
            && (e.Exits? && !s.t.aborting ==> n in s'.m.updated && n < |s'.m.made| && s'.m.made[n] == MADE)
            && (!e.Exits? || s.t.aborting ==> s'.m == s.m)
            && (e.Fails? ==> s'.t.errors > s.t.errors && n in s'.t.failed)
            && (!e.Stops? && s'.t.aborting && s'.t.nJobs == 0 ==> s'.t.exited)
            && (e.Stops? ==>
                  s'.t.errors == s.t.errors && s'.t.stopped == s.t.stopped + [s.t.jobs[e.k].(gone := e.gone)])
  {
    StepIs(g, cf, s, Report(e));
    var job := s.t.jobs[e.k];
    assert job in s.t.jobs;
    var s1 := s.(t := Released(s.t, e.k));
    match e
    case Exits(_) =>
      RestartJobsMarks(g, cf, Credit(g, cf, s1, job.node));
      if !s.t.aborting { CreditMakes(g, cf, s, job.node); }
    case Fails(_) =>
      var s2 := s1.(t := s1.t.(errors := s1.t.errors + 1, failed := s1.t.failed + {job.node}));
      RestartJobsMarks(g, cf, s2);
      RestartJobsGrow(g, cf, s2);
    case Stops(_, _) =>
  }

  lemma CreditMakes(g: Graph, cf: Config, s: State, n: nat)
    requires Safe(g, cf, s) && n < |g| && (exists k :: 0 <= k < |s.t.jobs| && s.t.jobs[k].node == n)
    ensures var m := Update(g, cf.now, s.m.(made := s.m.made[n := MADE]), n); n in m.updated && m.made[n] == MADE
  {
    var k :| 0 <= k < |s.t.jobs| && s.t.jobs[k].node == n;
    CountHas(s.t.jobs, k);
    JobNode(g, cf, s, {}, n);
    QueueApart(g, cf.now, s.m, n);
    UpdateIsDone(g, cf.now, s.m, n, MADE, s.m.(made := s.m.made[n := MADE]));
  }
}
