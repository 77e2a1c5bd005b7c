/** What a run of the scheduler amounts to: which nodes it gets to, and what becomes of them. */
module MakeResults {
  import opened MakeGraph
  import opened MakeNodes
  import opened MakeInvariant
  import opened MakeUpdate
  import opened MakeJobs
  import opened MakeRuns
  import opened MakeSteps

  // ----- Counting marked nodes.

  function Marked(make: seq<bool>): (s: set<nat>)
    ensures forall n: nat :: n in s <==> n < |make| && make[n]
  {
    set n: nat | n < |make| && make[n]
  }

  lemma {:induction false} MarkedSize(make: seq<bool>)
    ensures |Marked(make)| == CountTrue(make)
  {
    if make != [] {
      var k := |make| - 1;
      MarkedSize(make[..k]);
      if make[k] {
        assert Marked(make) == Marked(make[..k]) + {k};
      } else {
        assert Marked(make) == Marked(make[..k]);
      }
    } else {
      assert Marked(make) == {};
    }
  }

  function Elements(s: seq<nat>): set<nat> {
    set x | x in s
  }

  lemma {:induction false} DistinctSize(s: seq<nat>)
    requires Distinct(s)
    ensures |Elements(s)| == |s|
  {
    if s == [] {
      assert Elements(s) == {};
    } else {
      var k := |s| - 1;
      DistinctSize(s[..k]);
      assert s == s[..k] + [s[k]];
      assert Elements(s) == Elements(s[..k]) + {s[k]};
      assert s[k] !in s[..k];
    }
  }

  lemma SubsetSize(a: set<nat>, b: set<nat>)
    requires a <= b
    ensures |a| <= |b| && (|a| == |b| ==> a == b)
  {
    var c := b - a;
    assert b == a + c;
    if |c| == 0 { assert c == {}; }
  }

  predicate AllExamined(g: Graph, m: Marks)
    requires Sized(g, m)
  {
    forall n: nat :: n < |g| && m.make[n] ==> n in m.examined
  }

  /** `numNodes` counts the marked nodes that were not examined. */
  lemma NumNodesCounts(g: Graph, cf: Config, s: State)
    requires Safe(g, cf, s)
    ensures s.m.numNodes >= 0
    ensures s.m.numNodes == 0 <==> AllExamined(g, s.m)
  {
    var e := Elements(s.m.examined);
    MarkedSize(s.m.make);
    DistinctSize(s.m.examined);
    forall n | n in e ensures n in Marked(s.m.make) { ExaminedMarked(g, cf.now, s.m, n); }
    SubsetSize(e, Marked(s.m.make));
    if AllExamined(g, s.m) {
      assert e == Marked(s.m.make);
    }
  }

  // ----- Safety, spelled out.

  /** The entries of `cs` that are still to come. */
  function Open(cs: seq<nat>, updated: set<nat>): set<nat> {
    set c | c in cs && c !in updated
  }

  lemma {:induction false} LeftCounts(cs: seq<nat>, updated: set<nat>)
    requires Distinct(cs)
    ensures Left(cs, updated) == |Open(cs, updated)|
  {
    if cs == [] {
      assert Open(cs, updated) == {};
    } else {
      var last, rest := cs[|cs| - 1], cs[..|cs| - 1];
      LeftCounts(rest, updated);
      assert cs == rest + [last] && last !in rest;
      assert Open(cs, updated) == if last in updated then Open(rest, updated) else Open(rest, updated) + {last};
    }
  }

  /** MAIN: at any time in any run, failing jobs included: `unmade` is the number of children
      not passed through `Make_Update`; no node was examined twice, and each only after all
      its children and, as far as they are to be made, its predecessors were done; a node
      that was examined is done, or failed, or has exactly one job, running or stopped. */
  lemma RunSafety(g: Graph, cf: Config, s: State, acts: seq<Act>, n: nat)
    requires Safe(g, cf, s) && n < |g|
    ensures var m := Run(g, cf, s, acts).m;
            && Sized(g, m) && Distinct(m.examined)
            && (m.make[n] ==> m.unmade[n] == |Open(g[n].children, m.updated)|)
            && (n in m.examined ==> m.make[n] && Precedes(g, m, n))
    ensures var t := Run(g, cf, s, acts).t; var m := Run(g, cf, s, acts).m;
            && t.nJobs == |t.jobs| <= cf.maxJobs && (t.nJobs == cf.maxJobs ==> t.jobFull)
            && (Count(t.jobs, n) + Count(t.stopped, n) ==
                  if n in m.examined && n !in m.updated && n !in t.failed then 1 else 0)
  {
    hide Precedes, Run;
    var s' := Run(g, cf, s, acts);
    assert Counted(g, s'.m, n) && LinkedAt(g, n) && Accounted(s', {}, n);
    LeftCounts(g[n].children, s'.m.updated);
    if n in s'.m.examined { ExaminedInOrder(g, cf.now, s'.m, n); }
  }

  lemma ExaminedInOrder(g: Graph, now: nat, m: Marks, n: nat)
    requires Linked(g) && Inv(g, now, m) && n < |g| && n in m.examined
    ensures m.make[n] && Precedes(g, m, n)
  {
    ExaminedMarked(g, now, m, n);
    var i := IndexIn(m.examined, n);
    assert InOrder(g, m, i);
    forall x | x in m.examined[..i]
      ensures x in m.examined && IndexIn(m.examined, x) < i
    {
      IndexBelow(m.examined, x, i);
    }
  }

  /** The children and marked predecessors of `n` were examined before it and are done. */
  predicate Precedes(g: Graph, m: Marks, n: nat)
    requires Sized(g, m) && n < |g|
  {
    && (forall c :: c in g[n].children ==> c in m.updated && Before(m, c, n))
    && (forall p :: p in g[n].preds && p < |g| && m.make[p] ==>
          p in m.updated && m.made[p] != UNMADE && Before(m, p, n))
  }

  predicate Before(m: Marks, x: nat, n: nat) {
    x in m.examined && IndexIn(m.examined, x) < IndexIn(m.examined, n)
  }

  // ----- The end of a run.

  /** Nothing is left to do and nothing failed. */
  predicate Quiet(s: State) {
    s.m.queue == [] && s.t.jobs == [] && s.t.stopped == [] && s.t.errors == 0
  }

  /** A rank below which children and marked predecessors lie: no cycle. */
  ghost predicate Ranked(g: Graph, make: seq<bool>, rank: seq<nat>) {
    && |rank| == |g| == |make|
    && (forall n: nat, c: nat :: n < |g| && c < |g| && make[n] && c in g[n].children ==> rank[c] < rank[n])
    && (forall n: nat, p: nat :: n < |g| && p < |g| && make[n] && make[p] && p in g[n].preds ==> rank[p] < rank[n])
  }

  /** A marked node that is done but still UNMADE precedes another marked node. */
  predicate Silent(g: Graph, m: Marks, p: nat, n: nat)
    requires Sized(g, m)
  {
    p < |g| && n < |g| && m.make[p] && m.make[n] && p in g[n].preds && p in m.updated && m.made[p] == UNMADE
  }

  /** In a quiet state examined nodes are done. */
  lemma QuietDone(g: Graph, cf: Config, s: State, n: nat)
    requires Safe(g, cf, s) && Quiet(s) && n in s.m.examined
    ensures n in s.m.updated
  {
    assert Accounted(s, {}, n);
  }

  /** Without cycles and silent predecessors every marked node is done in the end: among
      those that are not, one of least rank would have been queued. */
  lemma {:induction false} AllDone(g: Graph, cf: Config, s: State, rank: seq<nat>, n: nat)
    requires Safe(g, cf, s) && Quiet(s) && Ranked(g, s.m.make, rank) && n < |g| && s.m.make[n]
    requires forall p, x :: !Silent(g, s.m, p, x)
    ensures n in s.m.updated
    decreases rank[n]
  {
    var m := s.m;
    assert Closed(g, m, n) && Counted(g, m, n) && LinkedAt(g, n);
    forall c | c in g[n].children ensures c in m.updated { AllDone(g, cf, s, rank, c); }
    LeftAll(g[n].children, m.updated);
    if n !in m.examined {
      assert Ready(g, m, n) && Waits(g, m, n);
      var p :| p in g[n].preds && Blocks(m, p);
      AllDone(g, cf, s, rank, p);
      assert Silent(g, m, p, n);
      assert false;
    }
    QuietDone(g, cf, s, n);
  }

  function IndexIn(s: seq<nat>, x: nat): (i: nat)
    ensures x in s ==> i < |s| && s[i] == x
    ensures x !in s ==> i == |s|
  {
    if s == [] then 0 else if s[0] == x then 0 else 1 + IndexIn(s[1..], x)
  }

  lemma IndexBelow(s: seq<nat>, x: nat, i: nat)
    requires Distinct(s) && i <= |s| && x in s[..i]
    ensures IndexIn(s, x) < i
  {
    var j :| 0 <= j < i && s[j] == x;
    assert s[IndexIn(s, x)] == s[j];
  }

  /** The order of examination is a topological order of the marked nodes. */
  lemma ExaminationRanks(g: Graph, cf: Config, s: State, rank: seq<nat>)
    requires Safe(g, cf, s) && AllExamined(g, s.m)
    requires rank == seq(|g|, n requires 0 <= n < |g| => IndexIn(s.m.examined, n))
    ensures Ranked(g, s.m.make, rank)
  {
    var m := s.m;
    forall n: nat, c: nat | n < |g| && c < |g| && m.make[n] && c in g[n].children ensures rank[c] < rank[n] {
      assert InOrder(g, m, IndexIn(m.examined, n));
      IndexBelow(m.examined, c, IndexIn(m.examined, n));
    }
    forall n: nat, p: nat | n < |g| && p < |g| && m.make[n] && m.make[p] && p in g[n].preds ensures rank[p] < rank[n] {
      assert InOrder(g, m, IndexIn(m.examined, n));
      IndexBelow(m.examined, p, IndexIn(m.examined, n));
    }
  }

  /** MAIN: a run that comes to rest without errors has processed every marked node exactly
      when children and orderings are free of cycles and no node that stays UNMADE for want
      of commands is a predecessor. */
  lemma CompleteIff(g: Graph, cf: Config, s: State)
    requires Safe(g, cf, s) && Quiet(s)
    ensures s.m.numNodes == 0 <==>
              (exists rank :: Ranked(g, s.m.make, rank)) && forall p, n :: !Silent(g, s.m, p, n)
  {
    NumNodesCounts(g, cf, s);
    if s.m.numNodes == 0 {
      var rank := seq(|g|, n requires 0 <= n < |g| => IndexIn(s.m.examined, n));
      ExaminationRanks(g, cf, s, rank);
      forall p, n ensures !Silent(g, s.m, p, n) {
        if Silent(g, s.m, p, n) { ExaminedMarked(g, cf.now, s.m, n); }
      }
    }
    if (exists rank :: Ranked(g, s.m.make, rank)) && forall p, n :: !Silent(g, s.m, p, n) {
      var rank :| Ranked(g, s.m.make, rank);
      forall n: nat | n < |g| && s.m.make[n] ensures n in s.m.examined { AllDone(g, cf, s, rank, n); }
      assert AllExamined(g, s.m);
    }
  }

  // ----- What becomes of a node does not depend on the schedule.

  ghost predicate Grounded(g: Graph, make: seq<bool>, rank: seq<nat>) {
    && |rank| == |g| == |make|
    && (forall n: nat, i: nat :: n < |g| && make[n] && i < |g[n].children| ==>
          g[n].children[i] < |g| && make[g[n].children[i]] && rank[g[n].children[i]] < rank[n])
  }

  /** What a sequential make would record for a node: the rule applied to the outcomes of
      its children. */
  ghost function Outcome(g: Graph, now: nat, make: seq<bool>, rank: seq<nat>, n: nat): (Made, nat)
    requires Grounded(g, make, rank) && n < |g| && make[n]
    decreases rank[n], 1, 0
  {
    var k := |g[n].children|;
    Rule(g[n], now, OutcomeMade(g, now, make, rank, n, k), OutcomeTime(g, now, make, rank, n, k))
  }

  ghost function OutcomeMade(g: Graph, now: nat, make: seq<bool>, rank: seq<nat>, n: nat, k: nat): bool
    requires Grounded(g, make, rank) && n < |g| && make[n] && k <= |g[n].children|
    decreases rank[n], 0, k
  {
    k > 0 &&
    (OutcomeMade(g, now, make, rank, n, k - 1) ||
     (var c := g[n].children[k - 1]; !g[c].exec && Outcome(g, now, make, rank, c).0 == MADE))
  }

  ghost function OutcomeTime(g: Graph, now: nat, make: seq<bool>, rank: seq<nat>, n: nat, k: nat): nat
    requires Grounded(g, make, rank) && n < |g| && make[n] && k <= |g[n].children|
    decreases rank[n], 0, k
  {
    if k == 0 then 0
    else
      var c := g[n].children[k - 1];
      var r := Outcome(g, now, make, rank, c);
      Max(OutcomeTime(g, now, make, rank, n, k - 1), if !g[c].exec || r.0 == UPTODATE then r.1 else 0)
  }

  /** The children of `n` are done, with their outcomes. */
  ghost predicate ChildrenHold(g: Graph, now: nat, m: Marks, rank: seq<nat>, n: nat)
    requires Sized(g, m) && Grounded(g, m.make, rank) && n < |g| && m.make[n]
  {
    && Refs(g, g[n].children)
    && forall i :: 0 <= i < |g[n].children| ==> ChildHolds(g, now, m, rank, n, i)
  }

  ghost predicate ChildHolds(g: Graph, now: nat, m: Marks, rank: seq<nat>, n: nat, i: nat)
    requires Sized(g, m) && Grounded(g, m.make, rank) && n < |g| && m.make[n] && i < |g[n].children|
  {
    var c := g[n].children[i];
    c in m.updated && (m.made[c], m.mtime[c]) == Outcome(g, now, m.make, rank, c)
  }

  lemma {:induction false} OutcomeTimeFolds(g: Graph, now: nat, m: Marks, rank: seq<nat>, n: nat, k: nat)
    requires Sized(g, m) && Grounded(g, m.make, rank) && n < |g| && m.make[n] && k <= |g[n].children|
    requires ChildrenHold(g, now, m, rank, n)
    ensures OutcomeTime(g, now, m.make, rank, n, k) == Youngest(g, m, g[n].children[..k])
  {
    if k > 0 {
      OutcomeTimeFolds(g, now, m, rank, n, k - 1);
      assert g[n].children[..k][..k - 1] == g[n].children[..k - 1];
      assert ChildHolds(g, now, m, rank, n, k - 1);
    }
  }

  lemma {:induction false} OutcomeMadeFolds(g: Graph, now: nat, m: Marks, rank: seq<nat>, n: nat, k: nat)
    requires Sized(g, m) && Grounded(g, m.make, rank) && n < |g| && m.make[n] && k <= |g[n].children|
    requires ChildrenHold(g, now, m, rank, n)
    ensures OutcomeMade(g, now, m.make, rank, n, k) <==> exists i :: 0 <= i < k && MadeChild(g, m, g[n].children[i])
  {
    if k > 0 {
      OutcomeMadeFolds(g, now, m, rank, n, k - 1);
      assert ChildHolds(g, now, m, rank, n, k - 1);
    }
  }

  /** MAIN: whatever has happened so far, a node that is done has the outcome of a sequential
      make: what jobs ran beside it, in which order they ended, stopped or failed, has no say. */
  lemma {:induction false} OutcomeHolds(g: Graph, cf: Config, s: State, rank: seq<nat>, n: nat)
    requires Safe(g, cf, s) && Grounded(g, s.m.make, rank) && n in s.m.updated
    ensures n < |g| && s.m.make[n] && (s.m.made[n], s.m.mtime[n]) == Outcome(g, cf.now, s.m.make, rank, n)
    decreases if n < |rank| then rank[n] else 0
  {
    var m := s.m;
    ExaminedMarked(g, cf.now, m, n);
    assert Stamped(g, m, n) && Ruled(g, cf.now, m, n);
    var cs := g[n].children;
    forall i | 0 <= i < |cs| ensures ChildHolds(g, cf.now, m, rank, n, i) {
      assert cs[i] in cs;
      OutcomeHolds(g, cf, s, rank, cs[i]);
    }
    OutcomeTimeFolds(g, cf.now, m, rank, n, |cs|);
    OutcomeMadeFolds(g, cf.now, m, rank, n, |cs|);
    assert cs[..|cs|] == cs;
    assert OutcomeMade(g, cf.now, m.make, rank, n, |cs|) <==> m.childMade[n];
  }

  lemma RankedGrounded(g: Graph, cf: Config, s: State, rank: seq<nat>)
    requires Safe(g, cf, s) && Ranked(g, s.m.make, rank)
    ensures Grounded(g, s.m.make, rank)
  {
    forall n: nat, i: nat | n < |g| && s.m.make[n] && i < |g[n].children|
      ensures var c := g[n].children[i]; c < |g| && s.m.make[c] && rank[c] < rank[n]
    {
      assert g[n].children[i] in g[n].children && Closed(g, s.m, n);
    }
  }

  /** Two runs of the same make, with whatever limits and reports, agree on every node that
      both have done. */
  lemma SchedulesAgree(g: Graph, cf: Config, cf': Config, s: State, acts: seq<Act>, acts': seq<Act>, rank: seq<nat>,
                       n: nat)
    requires Safe(g, cf, s) && Safe(g, cf', s) && cf.now == cf'.now && Ranked(g, s.m.make, rank)
    requires n in Run(g, cf, s, acts).m.updated && n in Run(g, cf', s, acts').m.updated
    ensures var m, m' := Run(g, cf, s, acts).m, Run(g, cf', s, acts').m;
            && n < |g| && n < |m.made| && n < |m.mtime| && n < |m'.made| && n < |m'.mtime|
            && m.made[n] == m'.made[n] && m.mtime[n] == m'.mtime[n]
  {
    RankedGrounded(g, cf, s, rank);
    OutcomeHolds(g, cf, Run(g, cf, s, acts), rank, n);
    OutcomeHolds(g, cf', Run(g, cf', s, acts'), rank, n);
  }

  /** MAIN: on a graph without cycles, a run that comes to rest without errors is complete
      exactly when no marked predecessor is out of date without commands to run: something
      the graph and its files decide before the run. */
  lemma CompleteByGraph(g: Graph, cf: Config, s: State, rank: seq<nat>)
    requires Safe(g, cf, s) && Quiet(s) && Ranked(g, s.m.make, rank)
    ensures Grounded(g, s.m.make, rank)
    ensures s.m.numNodes == 0 <==>
              forall p: nat, n: nat :: p < |g| && n < |g| && s.m.make[p] && s.m.make[n] && p in g[n].preds ==>
                Outcome(g, cf.now, s.m.make, rank, p).0 != UNMADE
  {
    RankedGrounded(g, cf, s, rank);
    NumNodesCounts(g, cf, s);
    CompleteIff(g, cf, s);
    var m := s.m;
    if m.numNodes == 0 {
      forall p: nat, n: nat | p < |g| && n < |g| && m.make[p] && m.make[n] && p in g[n].preds
        ensures Outcome(g, cf.now, m.make, rank, p).0 != UNMADE
      {
        QuietDone(g, cf, s, p);
        OutcomeHolds(g, cf, s, rank, p);
        assert !Silent(g, m, p, n);
      }
    } else {
      var p, n :| Silent(g, m, p, n);
      OutcomeHolds(g, cf, s, rank, p);
    }
  }
}
