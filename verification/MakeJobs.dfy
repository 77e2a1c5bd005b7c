/** The job table of job.c as a value: starting, finishing, stopping and resuming jobs, and
    the steps of a parallel make. */
module MakeJobs {
  import opened MakeGraph
  import opened MakeNodes

  /** The file that the commands of a job are written to (`cmdFILE`): `Open` from `JobStart` on,
      `Given` to a shell and closed, or `Missing` when a child was to be given it again. */
  datatype CmdFile = Open | Given | Missing

  /** `restart` is JOB_RESTART: the job was held when it was started. It is never cleared.
      `gone` says that the stopped process cannot be signalled any more. */
  datatype Job = Job(node: nat, restart: bool, gone: bool, file: CmdFile)

  datatype Config = Config(maxJobs: nat, maxLocal: nat, keepgoing: bool, now: nat)

  /** The lists `jobs` and `stoppedJobs`, the counters and flags. `exited` is set where the
      program ends on an error. `failed` (nodes whose job ended without `Make_Update`), `launched`
      (nodes whose commands were given to a shell, in order) and `lost` (nodes for which a child
      was forked that has no commands to read, and starts no shell) are history. */
  datatype Pool = Pool(jobs: seq<Job>, stopped: seq<Job>, nJobs: int, nLocal: int, jobFull: bool,
                       errors: nat, aborting: bool, exited: bool, failed: set<nat>, launched: seq<nat>, lost: seq<nat>)

  datatype State = State(m: Marks, t: Pool)

  function JobFull(t: Pool): bool {
    t.aborting || t.jobFull
  }

  /** A job whose child has been forked: the parent closes the command file, if it is open. */
  function Forked(job: Job): Job {
    job.(file := if job.file.Open? then Given else Missing)
  }

  /** `JobExec`: a child is forked and the job enters the table. Without its command file the child
      dies before it becomes a shell. */
  function Exec(cf: Config, t: Pool, job: Job): Pool {
    t.(nLocal := t.nLocal + 1, nJobs := t.nJobs + 1, jobs := t.jobs + [Forked(job)],
       jobFull := t.jobFull || t.nJobs + 1 == cf.maxJobs,
       launched := if job.file.Open? then t.launched + [job.node] else t.launched,
       lost := if job.file.Open? then t.lost else t.lost + [job.node])
  }

  /** The end of a job that was told to go on. */
  function Continue(cf: Config, t: Pool, job: Job): Pool {
    t.(jobs := t.jobs + [job], nJobs := t.nJobs + 1, nLocal := t.nLocal + 1,
       jobFull := t.jobFull || t.nJobs + 1 == cf.maxJobs)
  }

  /** `JobStart`: without commands to run the node is done at once, and stays UNMADE. */
  function Start(g: Graph, cf: Config, s: State, n: nat): (s': State)
    requires Linked(g) && Sized(g, s.m) && n < |g|
    ensures Sized(g, s'.m) && s'.m.make == s.m.make
  {
    if !g[n].runs then
      if s.t.aborting then s else s.(m := Update(g, cf.now, s.m, n))
    else if s.t.nLocal >= cf.maxLocal && cf.maxLocal != 0 then
      s.(t := s.t.(jobFull := true, stopped := s.t.stopped + [Job(n, true, false, Open)]))
    else
      s.(t := Exec(cf, s.t.(jobFull := s.t.jobFull || s.t.nLocal >= cf.maxLocal), Job(n, false, false, Open)))
  }

  /** Put back at the front of the stopped jobs; the table counts as full. */
  function Hold(t: Pool, job: Job): Pool {
    t.(stopped := [job] + t.stopped, jobFull := true)
  }

  /** `JobRestart` of a job just taken off the stopped list. */
  function Restart(g: Graph, cf: Config, s: State, job: Job): (s': State)
    requires Sized(g, s.m)
    ensures Sized(g, s'.m) && s'.m.make == s.m.make
    ensures |s'.t.stopped| <= |s.t.stopped| + if s'.t.jobFull then 1 else 0
    decreases |s.t.stopped|, 2
  {
    if job.restart then
      s.(t := if s.t.nLocal >= cf.maxLocal then Hold(s.t, job) else Exec(cf, s.t, job))
    else if s.t.nLocal < cf.maxLocal && s.t.nJobs != cf.maxJobs then
      if job.gone then Fail(g, cf, s, job) else s.(t := Continue(cf, s.t, job))
    else s.(t := Hold(s.t, job))
  }

  /** `JobRestartJobs`. */
  function RestartJobs(g: Graph, cf: Config, s: State): (s': State)
    requires Sized(g, s.m)
    ensures Sized(g, s'.m) && s'.m.make == s.m.make
    ensures |s'.t.stopped| <= |s.t.stopped|
    decreases |s.t.stopped|, 0
  {
    if s.t.exited || s.t.jobFull || s.t.stopped == [] then s
    else
      var s1 := Restart(g, cf, s.(t := s.t.(stopped := s.t.stopped[1..])), s.t.stopped[0]);
      if s1.t.jobFull then s1 else RestartJobs(g, cf, s1)
  }

  /** After an error no more jobs are started, unless told to keep going; when the table
      is empty, that is the end. */
  function CheckAbort(cf: Config, t: Pool): Pool {
    var aborting := t.aborting || (t.errors > 0 && !cf.keepgoing);
    t.(aborting := aborting, exited := t.exited || (aborting && t.nJobs == 0))
  }

  /** `JobFinish` of a job that failed. */
  function Fail(g: Graph, cf: Config, s: State, job: Job): (s': State)
    requires Sized(g, s.m)
    ensures Sized(g, s'.m) && s'.m.make == s.m.make
    ensures |s'.t.stopped| <= |s.t.stopped|
    decreases |s.t.stopped|, 1
  {
    var s1 := RestartJobs(g, cf, s.(t := s.t.(errors := s.t.errors + 1, failed := s.t.failed + {job.node})));
    s1.(t := CheckAbort(cf, s1.t))
  }

  /** The commands of a node succeeded; when aborting nobody is told. */
  function Credit(g: Graph, cf: Config, s: State, n: nat): (s': State)
    requires Linked(g) && Sized(g, s.m) && n < |g|
    ensures Sized(g, s'.m) && s'.m.make == s.m.make
  {
    if s.t.aborting then s.(t := s.t.(failed := s.t.failed + {n}))
    else s.(m := Update(g, cf.now, s.m.(made := s.m.made[n := MADE]), n))
  }

  /** `JobFinish` of a job that succeeded. */
  function Succeed(g: Graph, cf: Config, s: State, job: Job): (s': State)
    requires Linked(g) && Sized(g, s.m) && job.node < |g|
    ensures Sized(g, s'.m) && s'.m.make == s.m.make
  {
    var s2 := RestartJobs(g, cf, Credit(g, cf, s, job.node));
    s2.(t := CheckAbort(cf, s2.t))
  }

  // ----- The steps of a run.

  /** What `waitpid` reports about the `k`-th running job. */
  datatype Event = Exits(k: nat) | Fails(k: nat) | Stops(k: nat, gone: bool)

  /** A child that had no commands to read has died of it, and nothing else is reported of it. */
  function Reported(job: Job, e: Event): Event {
    if job.file.Missing? then Fails(e.k) else e
  }

  function Without<T>(s: seq<T>, k: nat): seq<T>
    requires k < |s|
  {
    s[..k] + s[k + 1..]
  }

  /** The `k`-th job leaves the table. */
  function Released(t: Pool, k: nat): Pool
    requires k < |t.jobs|
  {
    t.(jobs := Without(t.jobs, k), nJobs := t.nJobs - 1, jobFull := false, nLocal := t.nLocal - 1)
  }

  /** One report in `Job_CatchChildren`. */
  function Catch(g: Graph, cf: Config, s: State, e: Event): (s': State)
    requires Linked(g) && Sized(g, s.m) && forall j :: j in s.t.jobs ==> j.node < |g|
    ensures Sized(g, s'.m) && s'.m.make == s.m.make
  {
    if s.t.exited || s.t.nLocal == 0 || e.k >= |s.t.jobs| then s
    else
      var job := s.t.jobs[e.k];
      var s1 := s.(t := Released(s.t, e.k));
      match Reported(job, e)
      case Exits(_) => Succeed(g, cf, s1, job)
      case Fails(_) => Fail(g, cf, s1, job)
      case Stops(_, gone) => s1.(t := s1.t.(stopped := s1.t.stopped + [job.(gone := gone)]))
  }

  /** `Job_Empty`: an empty table with jobs held back starts some of them. */
  function Empty(g: Graph, cf: Config, s: State): (r: (State, bool))
    requires Sized(g, s.m)
    ensures Sized(g, r.0.m) && r.0.m.make == s.m.make
  {
    if s.t.nJobs != 0 then (s, false)
    else if s.t.stopped != [] && !s.t.aborting then (RestartJobs(g, cf, s.(t := s.t.(jobFull := false))), false)
    else (s, true)
  }

  /** One round of the loop in `MakeStartJobs`. */
  function Examine(g: Graph, cf: Config, s: State): (s': State)
    requires Linked(g) && Sized(g, s.m) && forall x :: x in s.m.queue ==> x < |g|
    ensures Sized(g, s'.m) && s'.m.make == s.m.make
  {
    if s.t.exited || JobFull(s.t) || s.m.queue == [] then s
    else
      var n := s.m.queue[0];
      assert n in s.m.queue;
      if Blocked(g, s.m, n) then s.(m := Dequeue(s.m))
      else
        var m := Pass(g, Dequeue(s.m), n);
        if IsOODate(g, m, n) then Start(g, cf, s.(m := m), n)
        else s.(m := Settle(g, cf.now, m, n))
  }
}
