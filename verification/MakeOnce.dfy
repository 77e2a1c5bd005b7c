/** Commands are given to a shell once; with which limits jobs are held, and a child is forked
    that has no commands to read. */
module MakeOnce {
  import opened MakeGraph
  import opened MakeNodes
  import opened MakeInvariant
  import opened MakeJobs
  import opened MakeRuns
  import opened MakeSteps
  import opened MakeResults
  import opened MakeLaunch
  import opened MakeStart

  /** The numbers from `i` to `n - 1`. */
  function From(i: nat, n: nat): (r: seq<nat>)
    ensures i <= n ==> |r| == n - i
    ensures forall k :: 0 <= k < |r| ==> r[k] == i + k
    decreases n - i
  {
    if i >= n then [] else [i] + From(i + 1, n)
  }

  // ----- `n` targets without dependencies, out of date and with commands.

  function Target(): Node {
    Node([], [], [], [], false, false, true, false, true, 1, 1)
  }

  function Targets(n: nat): (g: Graph)
    ensures |g| == n && Linked(g)
  {
    var g := seq(n, _ => Target());
    assert forall i: nat :: i < n ==> LinkedAt(g, i);
    g
  }

  function Marked0(n: nat): (m: Marks)
    ensures Sized(Targets(n), m) && m.queue == From(0, n)
  {
    Marks(seq(n, _ => true), seq(n, _ => UNMADE), seq(n, _ => 0), seq(n, _ => false), seq(n, _ => 0), seq(n, _ => 1),
          From(0, n), n, [], {})
  }

  const EMPTY: Pool := Pool([], [], 0, 0, false, 0, false, false, {}, [], [])

  lemma {:induction false} AllTrue(n: nat)
    ensures CountTrue(seq(n, _ => true)) == n
  {
    if n > 0 {
      assert seq(n, _ => true)[..n - 1] == seq(n - 1, _ => true);
      AllTrue(n - 1);
    }
  }

  lemma BeginsExpanded(n: nat)
    ensures Expanded(Targets(n), From(0, n), Marked0(n))
  {
    var g, m := Targets(n), Marked0(n);
    AllTrue(n);
    assert Fresh(g, m);
    assert forall i: nat :: i < n ==> From(0, n)[i] == i;
    forall x: set<nat> | ClosedSet(g, x) && forall i: nat :: i in From(0, n) ==> i in x ensures Marked(m.make) <= x {
      forall i | i in Marked(m.make) ensures i in x { assert From(0, n)[i] == i; }
    }
    forall i: nat ensures i in m.queue <==> i < |g| && m.make[i] && g[i].children == [] {
      if i < n { assert From(0, n)[i] == i; }
    }
  }

  // ----- The steps of a run on them.

  function Jobs(k: nat): seq<Job> {
    seq(k, i requires 0 <= i < k => Job(i, false, false, Given))
  }

  /** The first `k` nodes run. */
  function Running(k: nat): Pool {
    Pool(Jobs(k), [], k, k, false, 0, false, false, {}, From(0, k), [])
  }

  lemma FromSnoc(i: nat, n: nat)
    requires i <= n
    ensures From(i, n + 1) == From(i, n) + [n]
  {
  }

  lemma LookStarts(cf: Config, n: nat, s: State, k: nat)
    requires k < cf.maxLocal < cf.maxJobs && k < n
    requires Sized(Targets(n), s.m) && s.m.queue == From(k, n) && s.t == Running(k)
    ensures var s' := Examine(Targets(n), cf, s); s'.m.queue == From(k + 1, n) && s'.t == Running(k + 1)
  {
    assert From(k, n)[0] == k && From(k, n)[1..] == From(k + 1, n);
    assert !Blocked(Targets(n), s.m, k);
    FromSnoc(0, k);
    assert Jobs(k) + [Job(k, false, false, Given)] == Jobs(k + 1);
  }

  /** The last node is held. */
  function Held(l: nat): Pool {
    Running(l).(stopped := [Job(l, true, false, Open)], jobFull := true)
  }

  lemma LookHolds(cf: Config, s: State)
    requires 0 < cf.maxLocal < cf.maxJobs
    requires var l := cf.maxLocal; Sized(Targets(l + 1), s.m) && s.m.queue == From(l, l + 1) && s.t == Running(l)
    ensures Examine(Targets(cf.maxLocal + 1), cf, s).t == Held(cf.maxLocal)
  {
    var l := cf.maxLocal;
    assert From(l, l + 1)[0] == l;
    assert !Blocked(Targets(l + 1), s.m, l);
  }

  function Looks(k: nat): seq<Act> {
    seq(k, _ => Look)
  }

  lemma RunFirst(g: Graph, cf: Config, s: State, a: Act, acts: seq<Act>)
    requires Safe(g, cf, s)
    ensures Run(g, cf, s, [a] + acts) == Run(g, cf, Step(g, cf, s, a), acts)
  {
    hide Safe;
    assert ([a] + acts)[1..] == acts;
  }

  lemma LookIsExamine(g: Graph, cf: Config, s: State)
    requires Safe(g, cf, s)
    ensures Step(g, cf, s, Look) == Examine(g, cf, s) && Sized(g, s.m) && (forall x :: x in s.m.queue ==> x < |g|)
  {
    SafeRefs(g, cf, s);
  }

  /** `k` looks start `k` nodes. */
  lemma {:induction false} LooksStart(cf: Config, n: nat, s: State, i: nat, k: nat)
    requires i + k <= cf.maxLocal < cf.maxJobs && cf.maxLocal < n && Safe(Targets(n), cf, s)
    requires s.m.queue == From(i, n) && s.t == Running(i)
    ensures var s' := Run(Targets(n), cf, s, Looks(k)); s'.m.queue == From(i + k, n) && s'.t == Running(i + k)
    decreases k
  {
    hide Safe, Examine, From, Running;
    if k > 0 {
      LookIsExamine(Targets(n), cf, s);
      LookStarts(cf, n, s, i);
      assert Looks(k) == [Look] + Looks(k - 1);
      RunFirst(Targets(n), cf, s, Look, Looks(k - 1));
      LooksStart(cf, n, Step(Targets(n), cf, s, Look), i + 1, k - 1);
    }
  }

  lemma RestartsHeld(g: Graph, cf: Config, s: State, job: Job)
    requires Sized(g, s.m) && s.t.stopped == [job] && job.restart && !s.t.jobFull && !s.t.exited
    requires s.t.nLocal < cf.maxLocal && s.t.nJobs + 1 != cf.maxJobs
    ensures RestartJobs(g, cf, s) == s.(t := Exec(cf, s.t.(stopped := []), job))
  {
    var s1 := s.(t := Exec(cf, s.t.(stopped := []), job));
    assert s.t.stopped[1..] == [];
    assert RestartJobs(g, cf, s) == RestartJobs(g, cf, s1);
  }

  /** Jobs `js` run and the held job is the only one that is stopped. */
  predicate Waiting(t: Pool, js: seq<Job>, held: Job) {
    && t.jobs == js && t.stopped == [held] && t.nJobs == |js| == t.nLocal
    && t.errors == 0 && !t.aborting && !t.exited
  }

  /** What becomes of the history when the job is forked. */
  predicate Records(t: Pool, t': Pool, job: Job) {
    && t'.launched == (if job.file.Open? then t.launched + [job.node] else t.launched)
    && t'.lost == if job.file.Open? then t.lost else t.lost + [job.node]
  }

  /** When a job ends, the held job is started from scratch. */
  lemma EndStarts(g: Graph, cf: Config, s: State, js: seq<Job>, held: Job)
    requires Linked(g) && Sized(g, s.m) && (forall j :: j in s.t.jobs ==> j.node < |g|)
    requires held.restart && js != [] && !js[0].file.Missing? && |js| <= cf.maxLocal < cf.maxJobs &&
             Waiting(s.t, js, held)
    ensures var t := Catch(g, cf, s, Exits(0)).t;
            && t.jobs == js[1..] + [Forked(held)] && t.stopped == [] && t.nJobs == |js| == t.nLocal
            && Records(s.t, t, held) && t.errors == 0 && !t.aborting && !t.exited
  {
    assert Without(js, 0) == js[1..] && js[0] in s.t.jobs;
    var s1 := s.(t := s.t.(jobs := js[1..], nJobs := |js| - 1, jobFull := false, nLocal := |js| - 1));
    RestartsHeld(g, cf, Credit(g, cf, s1, js[0].node), held);
  }

  /** When the job that was started last stops, it is held as before. */
  lemma StopHolds(g: Graph, cf: Config, s: State, js: seq<Job>, held: Job)
    requires Linked(g) && Sized(g, s.m) && (forall j :: j in s.t.jobs ==> j.node < |g|)
    requires s.t.jobs == js + [held] && s.t.stopped == [] && s.t.nJobs == |js| + 1 == s.t.nLocal
    requires s.t.errors == 0 && !s.t.aborting && !s.t.exited && !held.gone && !held.file.Missing?
    ensures var t := Catch(g, cf, s, Stops(|js|, false)).t;
            Waiting(t, js, held) && t.launched == s.t.launched && t.lost == s.t.lost
  {
    assert Without(js + [held], |js|) == js;
    assert [] + [held] == [held];
  }

  /** With nothing running, the question whether the table is empty starts the held job. */
  lemma PollStarts(g: Graph, cf: Config, s: State, held: Job)
    requires Sized(g, s.m) && held.restart && 0 < cf.maxLocal < cf.maxJobs && Waiting(s.t, [], held)
    ensures Records(s.t, Empty(g, cf, s).0.t, held)
  {
    RestartsHeld(g, cf, s.(t := s.t.(jobFull := false)), held);
  }

  // ----- The run.

  /** A run that begins with any graph and targets. */
  ghost predicate Begins(g: Graph, cf: Config, targs: seq<nat>, s: State) {
    Linked(g) && Expanded(g, targs, s.m) && Idle(s.t) && Safe(g, cf, s)
  }

  /** What is done to the last of `l + 1` targets, which is held: it is started when the first one
      ends, it stops, and it is to be started again. */
  function Again(l: nat): seq<Act>
    requires l > 0
  {
    [Report(Exits(0))] + ([Report(Stops(l - 1, false))] + ([if l == 1 then Poll else Report(Exits(0))] + []))
  }

  lemma StepIs(g: Graph, cf: Config, s: State, a: Act)
    requires Safe(g, cf, s)
    ensures Linked(g) && Sized(g, s.m) && (forall j :: j in s.t.jobs ==> j.node < |g|)
    ensures a.Report? ==> Step(g, cf, s, a) == Catch(g, cf, s, a.e)
    ensures a.Poll? ==> Step(g, cf, s, a) == Empty(g, cf, s).0
  {
    SafeRefs(g, cf, s);
  }

  lemma HeldIsLost(g: Graph, cf: Config, s: State, js: seq<Job>, held: Job)
    requires Safe(g, cf, s) && held.restart && !held.gone && held.file.Open?
    requires |js| == cf.maxLocal && 0 < cf.maxLocal < cf.maxJobs && Waiting(s.t, js, held)
    requires forall i :: 0 <= i < |js| ==> !js[i].file.Missing?
    ensures var t := Run(g, cf, s, Again(|js|)).t;
            t.launched == s.t.launched + [held.node] && t.lost == s.t.lost + [held.node]
  {
    hide Safe, Catch, Empty;
    var l := |js|;
    var a := if l == 1 then Poll else Report(Exits(0));
    StepIs(g, cf, s, Report(Exits(0)));
    EndStarts(g, cf, s, js, held);
    var s1 := Step(g, cf, s, Report(Exits(0)));
    StepIs(g, cf, s1, Report(Stops(l - 1, false)));
    StopHolds(g, cf, s1, js[1..], Forked(held));
    var s2 := Step(g, cf, s1, Report(Stops(l - 1, false)));
    StepIs(g, cf, s2, a);
    if l == 1 {
      assert js[1..] == [];
      PollStarts(g, cf, s2, Forked(held));
    } else {
      EndStarts(g, cf, s2, js[1..], Forked(held));
    }
    RunFirst(g, cf, s, Report(Exits(0)), [Report(Stops(l - 1, false))] + ([a] + []));
    RunFirst(g, cf, s1, Report(Stops(l - 1, false)), [a] + []);
    RunFirst(g, cf, s2, a, []);
  }

  lemma {:induction false} RunRun(g: Graph, cf: Config, s: State, acts: seq<Act>, more: seq<Act>)
    requires Safe(g, cf, s)
    ensures Run(g, cf, s, acts + more) == Run(g, cf, Run(g, cf, s, acts), more)
    decreases acts
  {
    hide Safe;
    if acts == [] {
      assert acts + more == more;
    } else {
      assert acts + more == [acts[0]] + (acts[1..] + more) && acts == [acts[0]] + acts[1..];
      RunFirst(g, cf, s, acts[0], acts[1..] + more);
      RunFirst(g, cf, s, acts[0], acts[1..]);
      RunRun(g, cf, Step(g, cf, s, acts[0]), acts[1..], more);
    }
  }

  lemma HeldWaits(l: nat)
    ensures Waiting(Held(l), Jobs(l), Job(l, true, false, Open))
    ensures Held(l).stopped == [Job(l, true, false, Open)] && Held(l).launched == From(0, l) && Held(l).lost == []
    ensures |Jobs(l)| == l && forall i :: 0 <= i < l ==> !Jobs(l)[i].file.Missing?
  {
  }

  /** With a limit on local jobs below the limit on jobs, the last of `maxLocal + 1` targets is
      held; when it has been started and stops, a child is forked for it that finds no commands. */
  lemma HeldJobIsLost(cf: Config)
    requires 0 < cf.maxLocal < cf.maxJobs
    ensures var l := cf.maxLocal;
            var g, s := Targets(l + 1), State(Marked0(l + 1), EMPTY);
            && Begins(g, cf, From(0, l + 1), s)
            && Run(g, cf, s, Looks(l) + [Look]).t.stopped == [Job(l, true, false, Open)]
            && Run(g, cf, s, (Looks(l) + [Look]) + Again(l)).t.launched == From(0, l) + [l]
            && Run(g, cf, s, (Looks(l) + [Look]) + Again(l)).t.lost == [l]
  {
    hide Safe, Expanded, Run, Looks, Again, From, Held, Waiting;
    var l := cf.maxLocal;
    var s := State(Marked0(l + 1), EMPTY);
    BeginsExpanded(l + 1);
    ExpandedSafe(Targets(l + 1), cf, From(0, l + 1), s);
    AfterLooks(cf, s);
    HeldWaits(l);
    ThenIsLost(Targets(l + 1), cf, s, Looks(l) + [Look], l);
  }

  lemma ThenIsLost(g: Graph, cf: Config, s: State, acts: seq<Act>, l: nat)
    requires Safe(g, cf, s) && l == cf.maxLocal && 0 < l < cf.maxJobs && Run(g, cf, s, acts).t == Held(l)
    ensures var t := Run(g, cf, s, acts + Again(l)).t; t.launched == From(0, l) + [l] && t.lost == [l]
  {
    hide Safe, Run, Again, From, Waiting;
    HeldWaits(l);
    RunRun(g, cf, s, acts, Again(l));
    HeldIsLost(g, cf, Run(g, cf, s, acts), Jobs(l), Job(l, true, false, Open));
    assert [] + [l] == [l];
  }

  lemma AfterLooks(cf: Config, s: State)
    requires 0 < cf.maxLocal < cf.maxJobs && s == State(Marked0(cf.maxLocal + 1), EMPTY)
    requires Safe(Targets(cf.maxLocal + 1), cf, s)
    ensures var l := cf.maxLocal; Run(Targets(l + 1), cf, s, Looks(l) + [Look]).t == Held(l)
  {
    hide Safe, Examine;
    var l := cf.maxLocal;
    var g := Targets(l + 1);
    assert EMPTY == Running(0) by { assert Jobs(0) == []; }
    RunRun(g, cf, s, Looks(l), [Look]);
    LooksStart(cf, l + 1, s, 0, l);
    var s1 := Run(g, cf, s, Looks(l));
    LookIsExamine(g, cf, s1);
    LookHolds(cf, s1);
    assert [Look] == [Look] + [];
    RunFirst(g, cf, s1, Look, []);
  }

  // ----- All runs.

  /** No run gives the commands of a node to a shell twice. */
  ghost predicate NeverTwice(cf: Config) {
    forall g, targs, s, acts :: Begins(g, cf, targs, s) ==> Distinct(Run(g, cf, s, acts).t.launched)
  }

  /** No run holds a job to start it later. */
  ghost predicate NeverHeld(cf: Config) {
    forall g, targs, s, acts, i: nat :: Begins(g, cf, targs, s) && i < |Run(g, cf, s, acts).t.stopped| ==>
      !Run(g, cf, s, acts).t.stopped[i].restart
  }

  /** No run forks a child that has no commands to read. */
  ghost predicate NeverLost(cf: Config) {
    forall g, targs, s, acts :: Begins(g, cf, targs, s) ==> Run(g, cf, s, acts).t.lost == []
  }

  /** MAIN: with any limits, the commands of a node are given to a shell at most once in every run
      of every graph. */
  lemma OnceAlways(cf: Config)
    requires cf.maxJobs > 0
    ensures NeverTwice(cf)
  {
    hide Safe, Expanded;
    forall g, targs, s, acts | Begins(g, cf, targs, s) ensures Distinct(Run(g, cf, s, acts).t.launched) {
      ExpandedSafe(g, cf, targs, s);
      RunsOnce(g, cf, s, acts);
    }
  }

  lemma NoneWithoutLimit(cf: Config)
    requires cf.maxJobs > 0 && (cf.maxLocal == 0 || cf.maxLocal >= cf.maxJobs)
    ensures NeverHeld(cf) && NeverLost(cf)
  {
    hide Safe, Expanded;
    forall g, targs, s, acts | Begins(g, cf, targs, s) ensures NoneHeld(Run(g, cf, s, acts).t) {
      ExpandedSafe(g, cf, targs, s);
      RunsOnce(g, cf, s, acts);
    }
  }

  lemma SomeWithLimit(cf: Config)
    requires 0 < cf.maxLocal < cf.maxJobs
    ensures !NeverHeld(cf) && !NeverLost(cf)
  {
    hide Safe, Expanded;
    HeldJobIsLost(cf);
    var l := cf.maxLocal;
    var g, s := Targets(l + 1), State(Marked0(l + 1), EMPTY);
    assert Begins(g, cf, From(0, l + 1), s);
    assert Run(g, cf, s, Looks(l) + [Look]).t.stopped[0].restart;
    assert Run(g, cf, s, (Looks(l) + [Look]) + Again(l)).t.lost != [];
  }

  /** MAIN: some run holds a job, and some run forks a child without commands, exactly if the limit
      on local jobs is below the limit on jobs and is not 0. */
  lemma LostIff(cf: Config)
    requires cf.maxJobs > 0
    ensures !NeverLost(cf) <==> 0 < cf.maxLocal < cf.maxJobs
    ensures !NeverHeld(cf) <==> 0 < cf.maxLocal < cf.maxJobs
  {
    if 0 < cf.maxLocal < cf.maxJobs { SomeWithLimit(cf); } else { NoneWithoutLimit(cf); }
  }

  /** Whatever is reported of a child without commands, its node has failed. */
  lemma LostFails(g: Graph, cf: Config, s: State, e: Event)
    requires Safe(g, cf, s) && !s.t.exited && e.k < |s.t.jobs| && s.t.jobs[e.k].file.Missing?
    ensures var t := Step(g, cf, s, Report(e)).t; t.errors > s.t.errors && s.t.jobs[e.k].node in t.failed
  {
    StepIs(g, cf, s, Report(e));
    var job := s.t.jobs[e.k];
    var s1 := s.(t := Released(s.t, e.k));
    RestartJobsGrow(g, cf, s1.(t := s1.t.(errors := s1.t.errors + 1, failed := s1.t.failed + {job.node})));
  }

  // ----- The limits that the options set, where jobs are not exported.

  /** `-j` sets both limits, and .NOTPARALLEL then the limit on jobs to 1. */
  function Limits(j: nat, notParallel: bool, keepgoing: bool, now: nat): Config {
    Config(if notParallel then 1 else j, j, keepgoing, now)
  }

  /** So no job is ever held, and no child is without commands. A limit of 0 on local jobs with some
      jobs allowed comes from `-j 0` with .NOTPARALLEL, and from nothing else. */
  lemma LimitsHoldNothing(j: nat, notParallel: bool, keepgoing: bool, now: nat)
    requires Limits(j, notParallel, keepgoing, now).maxJobs > 0
    ensures var cf := Limits(j, notParallel, keepgoing, now);
            NeverHeld(cf) && NeverLost(cf) && NeverTwice(cf) && (cf.maxLocal == 0 <==> j == 0 && notParallel)
  {
    LostIff(Limits(j, notParallel, keepgoing, now));
    OnceAlways(Limits(j, notParallel, keepgoing, now));
  }
}
