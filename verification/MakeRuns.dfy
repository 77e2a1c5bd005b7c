/** What every step of a parallel make keeps: the graph invariant, the job table, and the
    tie between them. */
module MakeRuns {
  import opened MakeGraph
  import opened MakeNodes
  import opened MakeInvariant
  import opened MakeUpdate
  import opened MakeExamine
  import opened MakeJobs

  /** How often node `n` occurs among the jobs of a list. */
  function Count(js: seq<Job>, n: nat): nat {
    if js == [] then 0 else (if js[0].node == n then 1 else 0) + Count(js[1..], n)
  }

  lemma {:induction false} CountAppend(a: seq<Job>, b: seq<Job>, n: nat)
    ensures Count(a + b, n) == Count(a, n) + Count(b, n)
  {
    if a == [] {
      assert a + b == b;
    } else {
      assert (a + b)[1..] == a[1..] + b;
      CountAppend(a[1..], b, n);
    }
  }

  lemma CountOne(job: Job, n: nat)
    ensures Count([job], n) == if job.node == n then 1 else 0
  {
    assert [job][1..] == [];
  }

  lemma CountWithout(js: seq<Job>, k: nat, n: nat)
    requires k < |js|
    ensures Count(js, n) == Count(Without(js, k), n) + if js[k].node == n then 1 else 0
  {
    assert js == js[..k] + [js[k]] + js[k + 1..];
    CountAppend(js[..k] + [js[k]], js[k + 1..], n);
    CountAppend(js[..k], [js[k]], n);
    CountAppend(js[..k], js[k + 1..], n);
    CountOne(js[k], n);
  }

  lemma {:induction false} CountHas(js: seq<Job>, k: nat)
    requires k < |js|
    ensures Count(js, js[k].node) > 0
  {
    if k > 0 { CountHas(js[1..], k - 1); }
  }

  /** Every examined node is done, or failed, or has its job in exactly one of the two
      lists, or in `hand`. */
  predicate Accounted(s: State, hand: set<nat>, n: nat) {
    && Count(s.t.jobs, n) + Count(s.t.stopped, n) + (if n in hand then 1 else 0)
       == (if n in s.m.examined && n !in s.m.updated && n !in s.t.failed then 1 else 0)
    && (n in s.t.failed ==> n in s.m.examined && n !in s.m.updated)
  }

  /** The counters agree with the lists; a full table is known to be full, and no other is
      taken for full. */
  predicate PoolOk(cf: Config, t: Pool) {
    && t.nJobs == t.nLocal == |t.jobs| <= cf.maxJobs
    && (t.nJobs == cf.maxJobs ==> t.jobFull)
    && (t.aborting ==> t.errors > 0)
    && (t.errors == 0 ==> t.failed == {} && !t.exited)
  }

  predicate FullForAReason(t: Pool) {
    t.jobFull ==> t.jobs != [] || t.stopped != []
  }

  ghost predicate Keeps(g: Graph, cf: Config, s: State, hand: set<nat>) {
    && cf.maxJobs > 0
    && Linked(g) && Inv(g, cf.now, s.m) && Busy(g, s.m, {})
    && PoolOk(cf, s.t)
    && (forall n: nat {:trigger Accounted(s, hand, n)} :: Accounted(s, hand, n))
  }

  /** A job in a list, or in hand, is of a node that is out of date and runs commands. */
  lemma JobNode(g: Graph, cf: Config, s: State, hand: set<nat>, n: nat)
    requires Keeps(g, cf, s, hand) && (Count(s.t.jobs, n) > 0 || Count(s.t.stopped, n) > 0 || n in hand)
    ensures n < |g| && n in s.m.examined && n !in s.m.updated && IsOODate(g, s.m, n) && g[n].runs
  {
    assert Accounted(s, hand, n);
    ExaminedMarked(g, cf.now, s.m, n);
  }

  lemma ExecKeeps(g: Graph, cf: Config, s: State, job: Job)
    requires Keeps(g, cf, s, {job.node}) && s.t.nJobs < cf.maxJobs
    ensures Keeps(g, cf, s.(t := Exec(cf, s.t, job)), {}) && FullForAReason(Exec(cf, s.t, job))
  {
    var s' := s.(t := Exec(cf, s.t, job));
    forall n: nat ensures Accounted(s', {}, n) {
      assert Accounted(s, {job.node}, n);
      CountAppend(s.t.jobs, [Forked(job)], n);
      CountOne(Forked(job), n);
    }
  }

  lemma ContinueKeeps(g: Graph, cf: Config, s: State, job: Job)
    requires Keeps(g, cf, s, {job.node}) && s.t.nJobs < cf.maxJobs
    ensures Keeps(g, cf, s.(t := Continue(cf, s.t, job)), {}) && FullForAReason(Continue(cf, s.t, job))
  {
    var s' := s.(t := Continue(cf, s.t, job));
    forall n: nat ensures Accounted(s', {}, n) {
      assert Accounted(s, {job.node}, n);
      CountAppend(s.t.jobs, [job], n);
      CountOne(job, n);
    }
  }

  lemma HoldKeeps(g: Graph, cf: Config, s: State, job: Job)
    requires Keeps(g, cf, s, {job.node})
    ensures Keeps(g, cf, s.(t := Hold(s.t, job)), {}) && FullForAReason(Hold(s.t, job))
  {
    var s' := s.(t := Hold(s.t, job));
    forall n: nat ensures Accounted(s', {}, n) {
      assert Accounted(s, {job.node}, n);
      CountAppend([job], s.t.stopped, n);
      CountOne(job, n);
    }
  }

  /** A new job that has to wait, or one that stopped, goes to the end of the list. */
  lemma StopKeeps(g: Graph, cf: Config, s: State, job: Job, full: bool)
    requires Keeps(g, cf, s, {job.node}) && (s.t.jobFull ==> full)
    ensures Keeps(g, cf, s.(t := s.t.(jobFull := full, stopped := s.t.stopped + [job])), {})
  {
    var s' := s.(t := s.t.(jobFull := full, stopped := s.t.stopped + [job]));
    forall n: nat ensures Accounted(s', {}, n) {
      assert Accounted(s, {job.node}, n);
      CountAppend(s.t.stopped, [job], n);
      CountOne(job, n);
    }
  }

  lemma FailedKeeps(g: Graph, cf: Config, s: State, job: Job, errors: nat)
    requires Keeps(g, cf, s, {job.node}) && errors > 0
    ensures Keeps(g, cf, s.(t := s.t.(errors := errors, failed := s.t.failed + {job.node})), {})
  {
    var s' := s.(t := s.t.(errors := errors, failed := s.t.failed + {job.node}));
    forall n: nat ensures Accounted(s', {}, n) { assert Accounted(s, {job.node}, n); }
  }

  lemma CheckAbortKeeps(g: Graph, cf: Config, s: State)
    requires Keeps(g, cf, s, {})
    ensures Keeps(g, cf, s.(t := CheckAbort(cf, s.t)), {})
  {
    var s' := s.(t := CheckAbort(cf, s.t));
    forall n: nat ensures Accounted(s', {}, n) { assert Accounted(s, {}, n); }
  }

  /** Taking a job off the stopped list. */
  lemma TakeKeeps(g: Graph, cf: Config, s: State)
    requires Keeps(g, cf, s, {}) && s.t.stopped != []
    ensures Keeps(g, cf, s.(t := s.t.(stopped := s.t.stopped[1..])), {s.t.stopped[0].node})
  {
    var s' := s.(t := s.t.(stopped := s.t.stopped[1..]));
    forall n: nat ensures Accounted(s', {s.t.stopped[0].node}, n) { assert Accounted(s, {}, n); }
  }

  lemma {:induction false} RestartKeeps(g: Graph, cf: Config, s: State, job: Job)
    requires Keeps(g, cf, s, {job.node}) && !s.t.jobFull
    ensures Keeps(g, cf, Restart(g, cf, s, job), {}) && FullForAReason(Restart(g, cf, s, job).t)
    decreases |s.t.stopped|, 2
  {
    if job.restart {
      if s.t.nLocal >= cf.maxLocal { HoldKeeps(g, cf, s, job); } else { ExecKeeps(g, cf, s, job); }
    } else if s.t.nLocal < cf.maxLocal && s.t.nJobs != cf.maxJobs {
      if job.gone { FailKeeps(g, cf, s, job); } else { ContinueKeeps(g, cf, s, job); }
    } else {
      HoldKeeps(g, cf, s, job);
    }
  }

  lemma {:induction false} RestartJobsKeeps(g: Graph, cf: Config, s: State)
    requires Keeps(g, cf, s, {}) && FullForAReason(s.t)
    ensures Keeps(g, cf, RestartJobs(g, cf, s), {}) && FullForAReason(RestartJobs(g, cf, s).t)
    decreases |s.t.stopped|, 0
  {
    if !s.t.exited && !s.t.jobFull && s.t.stopped != [] {
      TakeKeeps(g, cf, s);
      var s0 := s.(t := s.t.(stopped := s.t.stopped[1..]));
      RestartKeeps(g, cf, s0, s.t.stopped[0]);
      var s1 := Restart(g, cf, s0, s.t.stopped[0]);
      if !s1.t.jobFull { RestartJobsKeeps(g, cf, s1); }
    }
  }

  lemma {:induction false} FailKeeps(g: Graph, cf: Config, s: State, job: Job)
    requires Keeps(g, cf, s, {job.node}) && !s.t.jobFull
    ensures Keeps(g, cf, Fail(g, cf, s, job), {}) && FullForAReason(Fail(g, cf, s, job).t)
    decreases |s.t.stopped|, 1
  {
    FailedKeeps(g, cf, s, job, s.t.errors + 1);
    var s0 := s.(t := s.t.(errors := s.t.errors + 1, failed := s.t.failed + {job.node}));
    RestartJobsKeeps(g, cf, s0);
    CheckAbortKeeps(g, cf, RestartJobs(g, cf, s0));
  }

  /** `Make_Update` of the node whose job is in hand. */
  lemma DoneKeeps(g: Graph, cf: Config, s: State, n: nat, v: Made)
    requires Keeps(g, cf, s, {n}) && v == MADE
    ensures n < |g|
    ensures Keeps(g, cf, s.(m := Update(g, cf.now, s.m.(made := s.m.made[n := v]), n)), {})
  {
    JobNode(g, cf, s, {n}, n);
    var s' := s.(m := Update(g, cf.now, s.m.(made := s.m.made[n := v]), n));
    UpdateKeeps(g, cf.now, s.m, n, v);
    forall x: nat ensures Accounted(s', {}, x) { assert Accounted(s, {n}, x); }
  }

  lemma SucceedKeeps(g: Graph, cf: Config, s: State, job: Job)
    requires Keeps(g, cf, s, {job.node}) && !s.t.jobFull
    ensures job.node < |g|
    ensures Keeps(g, cf, Succeed(g, cf, s, job), {}) && FullForAReason(Succeed(g, cf, s, job).t)
  {
    var n := job.node;
    JobNode(g, cf, s, {n}, n);
    if s.t.aborting { FailedKeeps(g, cf, s, job, s.t.errors); } else { DoneKeeps(g, cf, s, n, MADE); }
    var s1 := Credit(g, cf, s, n);
    RestartJobsKeeps(g, cf, s1);
    CheckAbortKeeps(g, cf, RestartJobs(g, cf, s1));
  }
}
