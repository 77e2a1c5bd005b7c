/** The steps of a parallel make and its runs: whatever the order in which jobs end, stop
    and go on, the invariants hold, and a run that ends without errors has made everything
    it could. */
module MakeSteps {
  import opened MakeGraph
  import opened MakeNodes
  import opened MakeInvariant
  import opened MakeUpdate
  import opened MakeExamine
  import opened MakeJobs
  import opened MakeRuns

  ghost predicate Safe(g: Graph, cf: Config, s: State) {
    Keeps(g, cf, s, {}) && FullForAReason(s.t)
  }

  lemma SafeRefs(g: Graph, cf: Config, s: State)
    requires Safe(g, cf, s)
    ensures forall x :: x in s.m.queue ==> x < |g|
    ensures forall j :: j in s.t.jobs ==> j.node < |g|
  {
    forall x | x in s.m.queue ensures x < |g| { assert Ready(g, s.m, x); }
    forall j | j in s.t.jobs ensures j.node < |g| {
      var k :| 0 <= k < |s.t.jobs| && s.t.jobs[k] == j;
      CountHas(s.t.jobs, k);
      JobNode(g, cf, s, {}, j.node);
    }
  }

  /** A job leaves the table. */
  lemma LeaveKeeps(g: Graph, cf: Config, s: State, k: nat)
    requires Safe(g, cf, s) && k < |s.t.jobs|
    ensures Keeps(g, cf, s.(t := Released(s.t, k)),
                  {s.t.jobs[k].node})
  {
    var s' := s.(t := Released(s.t, k));
    forall n: nat ensures Accounted(s', {s.t.jobs[k].node}, n) {
      assert Accounted(s, {}, n);
      CountWithout(s.t.jobs, k, n);
    }
  }

  lemma CatchKeeps(g: Graph, cf: Config, s: State, e: Event)
    requires Safe(g, cf, s) && forall j :: j in s.t.jobs ==> j.node < |g|
    ensures Safe(g, cf, Catch(g, cf, s, e))
  {
    if !s.t.exited && s.t.nLocal != 0 && e.k < |s.t.jobs| {
      var job := s.t.jobs[e.k];
      LeaveKeeps(g, cf, s, e.k);
      var s1 := s.(t := Released(s.t, e.k));
      match Reported(job, e)
      case Exits(_) => SucceedKeeps(g, cf, s1, job);
      case Fails(_) => FailKeeps(g, cf, s1, job);
      case Stops(_, gone) => StopKeeps(g, cf, s1, job.(gone := gone), false);
    }
  }

  lemma EmptyKeeps(g: Graph, cf: Config, s: State)
    requires Safe(g, cf, s)
    ensures Safe(g, cf, Empty(g, cf, s).0)
  {
    if s.t.nJobs == 0 && s.t.stopped != [] && !s.t.aborting {
      var s1 := s.(t := s.t.(jobFull := false));
      forall n: nat ensures Accounted(s1, {}, n) { assert Accounted(s, {}, n); }
      RestartJobsKeeps(g, cf, s1);
    }
  }

  /** A node that is examined and needs no shell. */
  lemma QuietKeeps(g: Graph, cf: Config, s: State, n: nat, m: Marks, m': Marks)
    requires Safe(g, cf, s) && n !in s.m.examined && n !in s.m.updated
    requires m.examined == s.m.examined + [n] && m.updated == s.m.updated
    requires Inv(g, cf.now, m') && Busy(g, m', {}) && m'.examined == m.examined && m'.updated == m.updated + {n}
    ensures Safe(g, cf, s.(m := m'))
  {
    var s' := s.(m := m');
    forall x: nat ensures Accounted(s', {}, x) { assert Accounted(s, {}, x); }
  }

  lemma LaunchKeeps(g: Graph, cf: Config, s: State, n: nat, m: Marks)
    requires Safe(g, cf, s) && n !in s.m.examined && n !in s.m.updated && !JobFull(s.t) && n < |g|
    requires Inv(g, cf.now, m) && Busy(g, m, {n}) && IsOODate(g, m, n) && g[n].runs
    requires m.examined == s.m.examined + [n] && m.updated == s.m.updated
    ensures Safe(g, cf, Start(g, cf, s.(m := m), n))
  {
    var s1 := s.(m := m);
    forall x: nat ensures Accounted(s1, {n}, x) { assert Accounted(s, {}, x); }
    assert Keeps(g, cf, s1, {n});
    if s.t.nLocal >= cf.maxLocal && cf.maxLocal != 0 {
      StopKeeps(g, cf, s1, Job(n, true, false, Open), true);
    } else {
      var s2 := s1.(t := s.t.(jobFull := s.t.jobFull || s.t.nLocal >= cf.maxLocal));
      forall x: nat ensures Accounted(s2, {n}, x) { assert Accounted(s1, {n}, x); }
      ExecKeeps(g, cf, s2, Job(n, false, false, Open));
    }
  }

  lemma ExamineKeeps(g: Graph, cf: Config, s: State)
    requires Safe(g, cf, s) && forall x :: x in s.m.queue ==> x < |g|
    ensures Safe(g, cf, Examine(g, cf, s))
  {
    if !s.t.exited && !JobFull(s.t) && s.m.queue != [] {
      var n := s.m.queue[0];
      assert Ready(g, s.m, n);
      if Blocked(g, s.m, n) {
        DropKeeps(g, cf.now, s.m);
        var s' := s.(m := Dequeue(s.m));
        forall x: nat ensures Accounted(s', {}, x) { assert Accounted(s, {}, x); }
      } else {
        PassKeeps(g, cf.now, s.m, n);
        var m := Pass(g, Dequeue(s.m), n);
        if !IsOODate(g, m, n) {
          SettleKeeps(g, cf.now, m, n);
          QuietKeeps(g, cf, s, n, m, Settle(g, cf.now, m, n));
        } else if !g[n].runs {
          UpdateKeeps(g, cf.now, m, n, UNMADE);
          assert Ruled(g, cf.now, m, n);
          assert m.made[n := UNMADE] == m.made;
          QuietKeeps(g, cf, s, n, m, Update(g, cf.now, m, n));
        } else {
          LaunchKeeps(g, cf, s, n, m);
        }
      }
    }
  }

  // ----- Runs.

  /** One thing that can happen: the scheduler looks at the queue, a child reports, or the
      table is asked whether it is empty. */
  datatype Act = Look | Report(e: Event) | Poll

  ghost function Step(g: Graph, cf: Config, s: State, a: Act): (s': State)
    requires Safe(g, cf, s)
    ensures Safe(g, cf, s') && s'.m.make == s.m.make
  {
    SafeRefs(g, cf, s);
    match a
    case Look => ExamineKeeps(g, cf, s); Examine(g, cf, s)
    case Report(e) => CatchKeeps(g, cf, s, e); Catch(g, cf, s, e)
    case Poll => EmptyKeeps(g, cf, s); Empty(g, cf, s).0
  }

  ghost function Run(g: Graph, cf: Config, s: State, acts: seq<Act>): (s': State)
    requires Safe(g, cf, s)
    ensures Safe(g, cf, s') && s'.m.make == s.m.make
    decreases acts
  {
    if acts == [] then s else Run(g, cf, Step(g, cf, s, acts[0]), acts[1..])
  }
}
