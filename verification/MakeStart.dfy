/** The state in which `Make_ExpandUse` leaves the graph. */
module MakeStart {
  import opened MakeGraph
  import opened MakeNodes
  import opened MakeInvariant
  import opened MakeUpdate
  import opened MakeExamine
  import opened MakeJobs
  import opened MakeRuns
  import opened MakeSteps
  import opened MakeResults
  import opened MakeLaunch

  /** Nodes as the parser leaves them, apart from the marks. */
  predicate Fresh(g: Graph, m: Marks) {
    && Sized(g, m)
    && (forall n: nat :: n < |g| ==>
          m.made[n] == UNMADE && m.unmade[n] == |g[n].children| && !m.childMade[n] && m.cmtime[n] == 0)
    && m.examined == [] && m.updated == {}
  }

  predicate ClosedSet(g: Graph, x: set<nat>) {
    forall n: nat, c: nat :: n in x && n < |g| && c in g[n].children ==> c in x
  }

  /** The marked nodes are the targets and what they depend on, and no others; the leaves
      among them are queued, each once. */
  ghost predicate Expanded(g: Graph, targs: seq<nat>, m: Marks) {
    && Fresh(g, m)
    && (forall n: nat :: n in targs ==> n < |g| && m.make[n])
    && ClosedSet(g, Marked(m.make))
    && (forall x: set<nat> :: ClosedSet(g, x) && (forall n: nat :: n in targs ==> n in x) ==> Marked(m.make) <= x)
    && (forall n: nat :: n < |g| && m.make[n] ==> m.mtime[n] == g[n].stat)
    && Distinct(m.queue)
    && (forall n: nat :: n in m.queue <==> n < |g| && m.make[n] && g[n].children == [])
    && m.numNodes == CountTrue(m.make)
  }

  predicate Idle(t: Pool) {
    t == Pool([], [], 0, 0, false, 0, false, false, {}, [], [])
  }

  lemma {:induction false} YoungestNone(g: Graph, m: Marks, cs: seq<nat>)
    requires Sized(g, m) && Refs(g, cs) && m.updated == {}
    ensures Youngest(g, m, cs) == 0
  {
    if cs != [] { YoungestNone(g, m, cs[..|cs| - 1]); }
  }

  /** Every run starts in a safe state. */
  lemma ExpandedSafe(g: Graph, cf: Config, targs: seq<nat>, s: State)
    requires Linked(g) && cf.maxJobs > 0 && Expanded(g, targs, s.m) && Idle(s.t)
    ensures Safe(g, cf, s) && Once(s) && NoneHeld(s.t)
  {
    var m := s.m;
    forall n: nat
      ensures Closed(g, m, n) && Counted(g, m, n) && Stamped(g, m, n) && Ruled(g, cf.now, m, n) && Waits(g, m, n)
    {
      if n < |g| && m.make[n] {
        assert LinkedAt(g, n);
        LeftAll(g[n].children, {});
        YoungestNone(g, m, g[n].children);
        forall c | c in g[n].children
          ensures c < |g| && m.make[c]
        {
          assert n in Marked(m.make) && c in Marked(m.make);
        }
      }
    }
    forall n: nat ensures Accounted(s, {}, n) { }
  }
}
