/** The order in which a parallel make takes nodes and jobs: first come, first served. */
module MakeOrder {
  import opened MakeGraph
  import opened MakeNodes
  import opened MakeInvariant
  import opened MakeUpdate
  import opened MakeExamine
  import opened MakeJobs
  import opened MakeRuns
  import opened MakeSteps

  /** `a` is `b` with some entries left out. */
  predicate Within(a: seq<nat>, b: seq<nat>)
    decreases |b|
  {
    a == [] || (b != [] && (Within(a, b[1..]) || (a[0] == b[0] && Within(a[1..], b[1..]))))
  }

  lemma {:induction false} WithinLast(a: seq<nat>, b: seq<nat>, x: nat)
    requires Within(a, b)
    ensures Within(a, b + [x]) && Within(a + [x], b + [x])
    decreases |b|
  {
    var c := b + [x];
    if b == [] {
      assert c[1..] == [] && (a + [x])[1..] == [] && (a + [x])[0] == x;
    } else {
      assert c[1..] == b[1..] + [x];
      if Within(a, b[1..]) {
        WithinLast(a, b[1..], x);
      } else {
        WithinLast(a[1..], b[1..], x);
        assert (a + [x])[1..] == a[1..] + [x];
      }
    }
  }

  lemma {:induction false} WithinAppend(a: seq<nat>, b: seq<nat>, c: seq<nat>, d: seq<nat>)
    requires Within(a, b) && Within(c, d)
    ensures Within(a + c, b + d)
    decreases |b|
  {
    if b == [] {
      assert a + c == c && b + d == d;
    } else {
      assert (b + d)[1..] == b[1..] + d;
      if Within(a, b[1..]) {
        WithinAppend(a, b[1..], c, d);
      } else {
        WithinAppend(a[1..], b[1..], c, d);
        assert (a + c)[1..] == a[1..] + c;
      }
    }
  }

  // ----- Who is queued when a node is done.

  lemma ParentQueued(g: Graph, m: Marks, c: nat, p: nat)
    requires Sized(g, m) && c < |g| && p < |g|
    ensures var m' := TellParent(g, m, c, p);
            m'.examined == m.examined && (m'.queue == m.queue || m'.queue == m.queue + [p])
  {
  }

  lemma SuccessorQueued(g: Graph, m: Marks, p: nat)
    requires Sized(g, m) && p < |g|
    ensures var m' := WakeSuccessor(g, m, p);
            m'.examined == m.examined && (m'.queue == m.queue || m'.queue == m.queue + [p])
  {
  }

  /** One link more. */
  lemma OneMore(q0: seq<nat>, q: seq<nat>, q': seq<nat>, more: seq<nat>, links: seq<nat>, k: nat)
    returns (all: seq<nat>)
    requires 0 < k <= |links| && q == q0 + more && Within(more, links[..k - 1])
    requires q' == q || q' == q + [links[k - 1]]
    ensures q' == q0 + all && Within(all, links[..k])
  {
    var p := links[k - 1];
    WithinLast(more, links[..k - 1], p);
    assert links[..k] == links[..k - 1] + [p];
    all := if q' == q then more else more + [p];
  }

  lemma {:induction false} ParentsQueued(g: Graph, m: Marks, c: nat, k: nat) returns (more: seq<nat>)
    requires Sized(g, m) && c < |g| && Refs(g, g[c].parents) && k <= |g[c].parents|
    ensures TellParents(g, m, c, k).queue == m.queue + more && Within(more, g[c].parents[..k])
    ensures TellParents(g, m, c, k).examined == m.examined
  {
    hide TellParent, Within;
    if k == 0 {
      more := NoneQueued(m.queue, g[c].parents);
    } else {
      var before := ParentsQueued(g, m, c, k - 1);
      var m1 := TellParents(g, m, c, k - 1);
      ParentQueued(g, m1, c, g[c].parents[k - 1]);
      more := OneMore(m.queue, m1.queue, TellParents(g, m, c, k).queue, before, g[c].parents, k);
    }
  }

  lemma {:induction false} SuccessorsQueued(g: Graph, m: Marks, c: nat, k: nat) returns (more: seq<nat>)
    requires Sized(g, m) && c < |g| && Refs(g, g[c].succs) && k <= |g[c].succs|
    ensures WakeSuccessors(g, m, c, k).queue == m.queue + more && Within(more, g[c].succs[..k])
    ensures WakeSuccessors(g, m, c, k).examined == m.examined
  {
    hide WakeSuccessor, Within;
    if k == 0 {
      more := NoneQueued(m.queue, g[c].succs);
    } else {
      var before := SuccessorsQueued(g, m, c, k - 1);
      var m1 := WakeSuccessors(g, m, c, k - 1);
      SuccessorQueued(g, m1, g[c].succs[k - 1]);
      more := OneMore(m.queue, m1.queue, WakeSuccessors(g, m, c, k).queue, before, g[c].succs, k);
    }
  }

  lemma NoneQueued(q: seq<nat>, links: seq<nat>) returns (more: seq<nat>)
    ensures q == q + more && Within(more, links[..0])
  {
    more := [];
  }

  /** What a node that is done adds to the queue comes last, parents before successors, each in the
      order of the links. */
  lemma UpdateQueues(g: Graph, now: nat, m: Marks, c: nat) returns (more: seq<nat>)
    requires Linked(g) && Sized(g, m) && c < |g|
    ensures Update(g, now, m, c).queue == m.queue + more && Within(more, g[c].parents + g[c].succs)
    ensures Update(g, now, m, c).examined == m.examined
  {
    hide TellParents, WakeSuccessors, Within;
    assert LinkedAt(g, c);
    var m1 := Restat(g, now, m, c);
    var parents := ParentsQueued(g, m1, c, |g[c].parents|);
    var succs := SuccessorsQueued(g, TellParents(g, m1, c, |g[c].parents|), c, |g[c].succs|);
    more := parents + succs;
    assert g[c].parents[..|g[c].parents|] == g[c].parents && g[c].succs[..|g[c].succs|] == g[c].succs;
    WithinAppend(parents, g[c].parents, succs, g[c].succs);
    assert (m.queue + parents) + succs == m.queue + more;
  }

  // ----- Steps.

  /** `more` has come to the queue at its end and `k` nodes have left it at its front; of those the
      ones that passed have been examined, in order. */
  predicate Moved(m: Marks, m': Marks, k: nat, more: seq<nat>) {
    var q := m.queue + more;
    && k <= |q| && m'.queue == q[k..]
    && |m.examined| <= |m'.examined| && m'.examined[..|m.examined|] == m.examined
    && Within(m'.examined[|m.examined|..], q[..k])
  }

  lemma Stays(m: Marks, m': Marks, more: seq<nat>)
    requires m'.queue == m.queue + more && m'.examined == m.examined
    ensures Moved(m, m', 0, more)
  {
    assert (m.queue + more)[0..] == m.queue + more;
  }

  lemma NothingMoves(m: Marks)
    ensures Moved(m, m, 0, [])
  {
    assert m.queue + [] == m.queue;
    Stays(m, m, []);
  }

  lemma TakesFirst(m: Marks, m': Marks, more: seq<nat>)
    requires m.queue != [] && m'.queue == m.queue[1..] + more
    requires m'.examined == m.examined || m'.examined == m.examined + [m.queue[0]]
    ensures Moved(m, m', 1, more)
  {
    assert (m.queue + more)[..1] == [m.queue[0]] && (m.queue + more)[1..] == m.queue[1..] + more;
    if m'.examined != m.examined { assert m'.examined[|m.examined|..] == [m.queue[0]]; }
  }

  lemma {:induction false} StampsQueue(g: Graph, m: Marks, n: nat, k: nat)
    requires Sized(g, m) && n < |g| && Refs(g, g[n].parents) && k <= |g[n].parents|
    ensures StampParents(g, m, n, k).queue == m.queue && StampParents(g, m, n, k).examined == m.examined
  {
    if k > 0 { StampsQueue(g, m, n, k - 1); }
  }

  /** MAIN: when there is room, the first node of the queue is taken; it is examined unless a
      predecessor that is to be made is still UNMADE, and then it has left the queue all the same. */
  lemma LookTakesFirst(g: Graph, cf: Config, s: State) returns (more: seq<nat>)
    requires Safe(g, cf, s) && !s.t.exited && !s.t.aborting && !s.t.jobFull && s.m.queue != []
    ensures var n, m' := s.m.queue[0], Step(g, cf, s, Look).m;
            && n < |g| == |s.m.made| && m'.queue == s.m.queue[1..] + more
            && m'.examined == if exists p :: p in g[n].preds && p < |g| && s.m.make[p] && s.m.made[p] == UNMADE
                              then s.m.examined else s.m.examined + [n]
  {
    SafeRefs(g, cf, s);
    var n := s.m.queue[0];
    assert n in s.m.queue;
    more := [];
    if Blocked(g, s.m, n) {
      assert s.m.queue[1..] + [] == s.m.queue[1..];
      var p :| p in g[n].preds && Blocks(s.m, p);
    } else {
      hide Update, Settle;
      assert forall p :: p in g[n].preds ==> !Blocks(s.m, p);
      var m := Pass(g, Dequeue(s.m), n);
      if !IsOODate(g, m, n) {
        more := SettleQueues(g, cf.now, m, n);
      } else if !g[n].runs {
        more := UpdateQueues(g, cf.now, m, n);
      } else {
        assert s.m.queue[1..] + [] == s.m.queue[1..];
      }
    }
  }

  lemma SettleQueues(g: Graph, now: nat, m: Marks, n: nat) returns (more: seq<nat>)
    requires Linked(g) && Sized(g, m) && n < |g|
    ensures Settle(g, now, m, n).queue == m.queue + more && Settle(g, now, m, n).examined == m.examined
  {
    hide Update, StampParents;
    assert LinkedAt(g, n);
    StampsQueue(g, m, n, |g[n].parents|);
    var m1 := StampParents(g, m, n, |g[n].parents|);
    more := UpdateQueues(g, now, m1.(made := m1.made[n := UPTODATE]), n);
  }

  // ----- Jobs that were held or stopped.

  /** The jobs of `js` that run again: a held one is given to a child, one that was stopped goes on
      unless it is gone. */
  function Resumed(js: seq<Job>): seq<Job> {
    if js == [] then []
    else (if js[0].restart then [Forked(js[0])] else if js[0].gone then [] else [js[0]]) + Resumed(js[1..])
  }

  lemma {:induction false} ResumedMore(a: seq<Job>, b: seq<Job>)
    ensures Resumed(a + b) == Resumed(a) + Resumed(b)
  {
    if a == [] {
      assert a + b == b;
    } else {
      assert (a + b)[1..] == a[1..] + b;
      ResumedMore(a[1..], b);
    }
  }

  /** The first `k` stopped jobs have been taken, and those that could have gone on. */
  predicate Resumes(t: Pool, t': Pool, k: nat) {
    k <= |t.stopped| && t'.stopped == t.stopped[k..] && t'.jobs == t.jobs + Resumed(t.stopped[..k])
  }

  lemma ResumesNone(t: Pool, t': Pool)
    requires t'.stopped == t.stopped && t'.jobs == t.jobs
    ensures Resumes(t, t', 0)
  {
    assert t.stopped[0..] == t.stopped && t.jobs + [] == t.jobs;
  }

  lemma ResumesJoin(t: Pool, t1: Pool, t2: Pool, j: nat, k: nat)
    requires Resumes(t, t1, j) && Resumes(t1, t2, k)
    ensures Resumes(t, t2, j + k)
  {
    ResumedMore(t.stopped[..j], t1.stopped[..k]);
    assert t.stopped[..j] + t1.stopped[..k] == t.stopped[..j + k];
    assert t1.stopped[k..] == t.stopped[j + k..];
  }

  lemma ResumesOne(t: Pool, t': Pool)
    requires t.stopped != [] && t'.stopped == t.stopped[1..]
    requires var job := t.stopped[0];
             t'.jobs == t.jobs + if job.restart then [Forked(job)] else if job.gone then [] else [job]
    ensures Resumes(t, t', 1)
  {
    var job := t.stopped[0];
    assert t.stopped[..1] == [job] && [job][1..] == [];
    assert Resumed([job]) == if job.restart then [Forked(job)] else if job.gone then [] else [job];
  }

  lemma {:induction false} RestartInOrder(g: Graph, cf: Config, s: State) returns (k: nat)
    requires Sized(g, s.m) && s.t.stopped != []
    ensures var s1 := s.(t := s.t.(stopped := s.t.stopped[1..]));
            Resumes(s.t, Restart(g, cf, s1, s.t.stopped[0]).t, k)
    decreases |s.t.stopped|, 1
  {
    hide Resumes, Resumed;
    var job := s.t.stopped[0];
    var s1 := s.(t := s.t.(stopped := s.t.stopped[1..]));
    var s2 := Restart(g, cf, s1, job);
    if !job.restart && job.gone && s.t.nLocal < cf.maxLocal && s.t.nJobs != cf.maxJobs {
      k := GoneInOrder(g, cf, s, s1, job);
    } else if job.restart && s.t.nLocal < cf.maxLocal {
      ResumesOne(s.t, s2.t);
      k := 1;
    } else if !job.restart && s.t.nLocal < cf.maxLocal && s.t.nJobs != cf.maxJobs {
      ResumesOne(s.t, s2.t);
      k := 1;
    } else {
      assert s2.t.stopped == [job] + s.t.stopped[1..] == s.t.stopped;
      ResumesNone(s.t, s2.t);
      k := 0;
    }
  }

  /** A job that is gone fails, and the next ones are tried at once. */
  lemma {:induction false} GoneInOrder(g: Graph, cf: Config, s: State, s1: State, job: Job) returns (k: nat)
    requires Sized(g, s.m) && s.t.stopped != [] && job == s.t.stopped[0] && !job.restart && job.gone
    requires s1 == s.(t := s.t.(stopped := s.t.stopped[1..]))
    ensures Resumes(s.t, Fail(g, cf, s1, job).t, k)
    decreases |s.t.stopped|, 0
  {
    hide Resumes, Resumed;
    var s3 := s1.(t := s1.t.(errors := s1.t.errors + 1, failed := s1.t.failed + {job.node}));
    var j := RestartJobsInOrder(g, cf, s3);
    assert s.t.jobs + [] == s.t.jobs;
    ResumesOne(s.t, s3.t);
    var s4 := RestartJobs(g, cf, s3);
    ResumesJoin(s.t, s3.t, s4.t, 1, j);
    ResumesSame(s.t, s4.t, Fail(g, cf, s1, job).t, 1 + j);
    k := 1 + j;
  }

  lemma ResumesSame(t: Pool, t1: Pool, t2: Pool, k: nat)
    requires Resumes(t, t1, k) && t1.stopped == t2.stopped && t1.jobs == t2.jobs
    ensures Resumes(t, t2, k)
  {
  }

  /** MAIN: jobs that were held or stopped run again in the order in which they stand in their list;
      the first one that cannot keeps its place. */
  lemma {:induction false} RestartJobsInOrder(g: Graph, cf: Config, s: State) returns (k: nat)
    requires Sized(g, s.m)
    ensures Resumes(s.t, RestartJobs(g, cf, s).t, k)
    decreases |s.t.stopped|, 2
  {
    if s.t.exited || s.t.jobFull || s.t.stopped == [] {
      ResumesNone(s.t, s.t);
      k := 0;
    } else {
      k := RestartInOrder(g, cf, s);
      var s1 := Restart(g, cf, s.(t := s.t.(stopped := s.t.stopped[1..])), s.t.stopped[0]);
      if !s1.t.jobFull {
        var j := RestartJobsInOrder(g, cf, s1);
        ResumesJoin(s.t, s1.t, RestartJobs(g, cf, s).t, k, j);
        k := k + j;
      }
    }
  }

  lemma {:induction false} RestartJobsMarks(g: Graph, cf: Config, s: State)
    requires Sized(g, s.m)
    ensures RestartJobs(g, cf, s).m == s.m
    decreases |s.t.stopped|, 0
  {
    if !s.t.exited && !s.t.jobFull && s.t.stopped != [] {
      var s0 := s.(t := s.t.(stopped := s.t.stopped[1..]));
      RestartMarks(g, cf, s0, s.t.stopped[0]);
      var s1 := Restart(g, cf, s0, s.t.stopped[0]);
      if !s1.t.jobFull { RestartJobsMarks(g, cf, s1); }
    }
  }

  lemma {:induction false} RestartMarks(g: Graph, cf: Config, s: State, job: Job)
    requires Sized(g, s.m)
    ensures Restart(g, cf, s, job).m == s.m
    decreases |s.t.stopped|, 1
  {
    if !job.restart && s.t.nLocal < cf.maxLocal && s.t.nJobs != cf.maxJobs && job.gone {
      RestartJobsMarks(g, cf, s.(t := s.t.(errors := s.t.errors + 1, failed := s.t.failed + {job.node})));
    }
  }

  // ----- Runs.

  lemma StepMoves(g: Graph, cf: Config, s: State, a: Act) returns (k: nat, more: seq<nat>)
    requires Safe(g, cf, s)
    ensures Moved(s.m, Step(g, cf, s, a).m, k, more)
  {
    SafeRefs(g, cf, s);
    var s' := Step(g, cf, s, a);
    k, more := 0, [];
    assert s.m.queue + [] == s.m.queue;
    match a
    case Look =>
      if s'.m.queue == s.m.queue && s'.m.examined == s.m.examined {
        Stays(s.m, s'.m, []);
      } else {
        more := LookTakesFirst(g, cf, s);
        TakesFirst(s.m, s'.m, more);
        k := 1;
      }
    case Poll =>
      RestartJobsMarks(g, cf, s.(t := s.t.(jobFull := false)));
      Stays(s.m, s'.m, []);
    case Report(e) => more := ReportQueues(g, cf, s, e); Stays(s.m, s'.m, more);
  }

  lemma ReportQueues(g: Graph, cf: Config, s: State, e: Event) returns (more: seq<nat>)
    requires Safe(g, cf, s)
    ensures var m' := Step(g, cf, s, Report(e)).m; m'.queue == s.m.queue + more && m'.examined == s.m.examined
  {
    SafeRefs(g, cf, s);
    more := [];
    assert s.m.queue + [] == s.m.queue;
    if !s.t.exited && s.t.nLocal != 0 && e.k < |s.t.jobs| {
      var job := s.t.jobs[e.k];
      var s1 := s.(t := Released(s.t, e.k));
      match Reported(job, e)
      case Exits(_) =>
        RestartJobsMarks(g, cf, Credit(g, cf, s1, job.node));
        if !s.t.aborting { more := UpdateQueues(g, cf.now, s.m.(made := s.m.made[job.node := MADE]), job.node); }
      case Fails(_) =>
        RestartJobsMarks(g, cf, s1.(t := s1.t.(errors := s1.t.errors + 1, failed := s1.t.failed + {job.node})));
      case Stops(_, _) =>
    }
  }

  lemma MovedJoin(m: Marks, m1: Marks, m2: Marks, j: nat, a: seq<nat>, k: nat, b: seq<nat>)
    requires Moved(m, m1, j, a) && Moved(m1, m2, k, b)
    ensures Moved(m, m2, j + k, a + b)
  {
    var q := m.queue + a;
    assert m.queue + (a + b) == q + b && m1.queue + b == (q + b)[j..];
    assert (q + b)[j + k..] == (q + b)[j..][k..] && (q + b)[..j + k] == q[..j] + (q + b)[j..][..k];
    var x, y := m1.examined[|m.examined|..], m2.examined[|m1.examined|..];
    WithinAppend(x, q[..j], y, (q + b)[j..][..k]);
    assert m2.examined == m1.examined + y;
    assert m2.examined[|m.examined|..] == x + y;
  }

  /** MAIN: over any run nodes leave the queue in the order in which they came to it, and those that
      are examined are examined in this order. */
  lemma {:induction false} RunMoves(g: Graph, cf: Config, s: State, acts: seq<Act>) returns (k: nat, more: seq<nat>)
    requires Safe(g, cf, s)
    ensures Moved(s.m, Run(g, cf, s, acts).m, k, more)
    decreases acts
  {
    hide Moved, Step, Safe;
    if acts == [] {
      NothingMoves(s.m);
      k, more := 0, [];
    } else {
      var j, a := StepMoves(g, cf, s, acts[0]);
      var i, b := RunMoves(g, cf, Step(g, cf, s, acts[0]), acts[1..]);
      MovedJoin(s.m, Step(g, cf, s, acts[0]).m, Run(g, cf, s, acts).m, j, a, i, b);
      k, more := j + i, a + b;
    }
  }
}
