/** When a node that is done was up to date, in terms of the times and states of its children alone:
    for parallel runs and for depth-first makes. */
module MakeDated {
  import opened MakeGraph
  import opened MakeNodes
  import opened MakeInvariant
  import opened MakeUpdate
  import opened MakeJobs
  import opened MakeRuns
  import opened MakeSteps
  import opened MakeResults
  import N = CompatNodes
  import C = CompatSafety
  import O = CompatOutcome

  /** No child that counts is younger than `t`. */
  lemma {:induction false} YoungestAtMost(g: Graph, m: Marks, cs: seq<nat>, t: nat)
    requires Sized(g, m) && Refs(g, cs)
    ensures Youngest(g, m, cs) <= t
            <==> forall i :: 0 <= i < |cs| && Stamps(g, m, cs[i]) ==> m.mtime[cs[i]] <= t
  {
    if cs != [] {
      var k := |cs| - 1;
      YoungestAtMost(g, m, cs[..k], t);
      assert forall i :: 0 <= i < k ==> cs[..k][i] == cs[i];
    }
  }

  // ----- Parallel runs.

  /** A child passes its time on unless it is .EXEC and has been out of date. */
  predicate Counts(g: Graph, m: Marks, c: nat) {
    c < |g| && c < |m.made| && c < |m.mtime| && (g[c].exec ==> m.made[c] == UPTODATE)
  }

  predicate NoneYounger(g: Graph, m: Marks, n: nat, t: nat)
    requires n < |g|
  {
    forall i :: 0 <= i < |g[n].children| && Counts(g, m, g[n].children[i]) ==> m.mtime[g[n].children[i]] <= t
  }

  predicate NoneMade(g: Graph, m: Marks, n: nat)
    requires n < |g|
  {
    forall i :: 0 <= i < |g[n].children| ==>
      var c := g[n].children[i]; c < |g| && c < |m.made| && (g[c].exec || m.made[c] != MADE)
  }

  /** MAIN: a done node is up to date exactly if: for .JOIN, no child but .EXEC ones was made; for a
      forced or .EXEC node, never; for an ordinary one, its file is as young as every child, and if
      no child has a time the file exists and the node has no `::`. Then it has the time of its
      file; otherwise the time found behind its commands, or the present, and it is made exactly if
      there are commands to run. */
  lemma DatedIff(g: Graph, cf: Config, s: State, acts: seq<Act>, n: nat)
    requires Safe(g, cf, s) && n in Run(g, cf, s, acts).m.updated
    ensures var m := Run(g, cf, s, acts).m;
            && n < |g| == |m.made| == |m.mtime|
            && (m.made[n] == UPTODATE <==>
                  if g[n].join then NoneMade(g, m, n)
                  else !g[n].forced && !g[n].exec && NoneYounger(g, m, n, g[n].stat) &&
                       (NoneYounger(g, m, n, 0) ==> g[n].stat != 0 && !g[n].doubleDep))
            && (m.made[n] == UPTODATE ==> m.mtime[n] == g[n].stat)
            && (m.made[n] != UPTODATE ==>
                  (m.made[n] == MADE <==> g[n].runs) && (g[n].after != 0 ==> m.mtime[n] == g[n].after) &&
                  (g[n].after == 0 ==> m.mtime[n] == cf.now))
  {
    hide Run;
    DatedHere(g, cf, Run(g, cf, s, acts), n);
  }

  lemma DatedHere(g: Graph, cf: Config, s: State, n: nat)
    requires Safe(g, cf, s) && n in s.m.updated
    ensures var m := s.m;
            && n < |g| == |m.made| == |m.mtime|
            && (m.made[n] == UPTODATE <==>
                  if g[n].join then NoneMade(g, m, n)
                  else !g[n].forced && !g[n].exec && NoneYounger(g, m, n, g[n].stat) &&
                       (NoneYounger(g, m, n, 0) ==> g[n].stat != 0 && !g[n].doubleDep))
            && (m.made[n] == UPTODATE ==> m.mtime[n] == g[n].stat)
            && (m.made[n] != UPTODATE ==>
                  (m.made[n] == MADE <==> g[n].runs) && (g[n].after != 0 ==> m.mtime[n] == g[n].after) &&
                  (g[n].after == 0 ==> m.mtime[n] == cf.now))
  {
    var m := s.m;
    ExaminedMarked(g, cf.now, m, n);
    assert Stamped(g, m, n) && Ruled(g, cf.now, m, n);
    var cs := g[n].children;
    YoungestAtMost(g, m, cs, g[n].stat);
    YoungestAtMost(g, m, cs, 0);
    assert NoneMade(g, m, n) <==> !exists c :: c in cs && MadeChild(g, m, c);
  }

  // ----- Depth-first makes.

  /** The time that a child of this result passes on. */
  predicate CountsHere(g: Graph, s: N.Fields, c: nat) {
    c < |g| && c < |s.made| && c < |s.mtime| && (g[c].exec ==> s.made[c] == N.UpToDate)
  }

  predicate NoneYoungerHere(g: Graph, s: N.Fields, n: nat, t: nat)
    requires n < |g|
  {
    forall i :: 0 <= i < |g[n].children| && CountsHere(g, s, g[n].children[i]) ==> s.mtime[g[n].children[i]] <= t
  }

  predicate NoneMadeHere(g: Graph, s: N.Fields, n: nat)
    requires n < |g|
  {
    forall i :: 0 <= i < |g[n].children| ==>
      var c := g[n].children[i]; c < |g| && c < |s.made| && (g[c].exec || s.made[c] != N.Made)
  }

  /** The first `k` children have their outcomes. */
  ghost predicate Settled(g: Graph, now: nat, marks: seq<bool>, rank: seq<nat>, s: N.Fields, n: nat, k: nat)
    requires Grounded(g, marks, rank) && n < |g| && marks[n]
  {
    && N.Fits(g, s) && k <= |g[n].children|
    && forall i :: 0 <= i < k ==>
         var c := g[n].children[i];
         (s.made[c] == N.Made || s.made[c] == N.UpToDate) &&
         (s.made[c], s.mtime[c]) == O.Outcome(g, now, marks, rank, c)
  }

  lemma {:induction false} OutcomeTimeAtMost(g: Graph, now: nat, marks: seq<bool>, rank: seq<nat>, s: N.Fields, n: nat,
                                             k: nat, t: nat)
    requires Grounded(g, marks, rank) && n < |g| && marks[n] && Settled(g, now, marks, rank, s, n, k)
    ensures O.OutcomeTime(g, now, marks, rank, n, k) <= t
            <==> forall i :: 0 <= i < k && CountsHere(g, s, g[n].children[i]) ==> s.mtime[g[n].children[i]] <= t
  {
    if k > 0 { OutcomeTimeAtMost(g, now, marks, rank, s, n, k - 1, t); }
  }

  lemma {:induction false} OutcomeMadeIs(g: Graph, now: nat, marks: seq<bool>, rank: seq<nat>, s: N.Fields, n: nat,
                                         k: nat)
    requires Grounded(g, marks, rank) && n < |g| && marks[n] && Settled(g, now, marks, rank, s, n, k)
    ensures O.OutcomeMade(g, now, marks, rank, n, k)
            <==> exists i :: 0 <= i < k && !g[g[n].children[i]].exec && s.made[g[n].children[i]] == N.Made
  {
    if k > 0 { OutcomeMadeIs(g, now, marks, rank, s, n, k - 1); }
  }

  /** MAIN: the same in a depth-first make in which nothing fails; a node that was not up to date is
      made, with the time found behind its commands or the present, but no older than any child
      that passes its time on. */
  lemma DatedHereIff(g: Graph, mode: N.Mode, marks: seq<bool>, rank: seq<nat>, s: N.Fields, targs: seq<nat>, n: nat)
    requires Linked(g) && Grounded(g, marks, rank) && C.Fresh(g, s) && Refs(g, targs) && O.NoneFails(mode, marks)
    requires forall t :: t in targs ==> t < |g| && marks[t]
    requires n < |g| && N.LinksIn(g) && O.Done(N.Targets(g, mode, s, targs), n)
    ensures var s' := N.Targets(g, mode, s, targs); var base := if g[n].after == 0 then mode.now else g[n].after;
            && (s'.made[n] == N.UpToDate <==>
                  if g[n].join then NoneMadeHere(g, s', n)
                  else !g[n].forced && !g[n].exec && NoneYoungerHere(g, s', n, g[n].stat) &&
                       (NoneYoungerHere(g, s', n, 0) ==> g[n].stat != 0 && !g[n].doubleDep))
            && (s'.made[n] == N.UpToDate ==> s'.mtime[n] == if g[n].join then 0 else g[n].stat)
            && (s'.made[n] != N.UpToDate ==>
                  && s'.made[n] == N.Made && s'.mtime[n] >= base && NoneYoungerHere(g, s', n, s'.mtime[n])
                  && forall t: nat :: t >= base && NoneYoungerHere(g, s', n, t) ==> s'.mtime[n] <= t)
  {
    O.MakesAll(g, mode, marks, rank, s, targs);
    OutcomeDated(g, mode.now, marks, rank, N.Targets(g, mode, s, targs), n);
  }

  lemma OutcomeDated(g: Graph, now: nat, marks: seq<bool>, rank: seq<nat>, s: N.Fields, n: nat)
    requires Grounded(g, marks, rank) && n < |g| && marks[n]
    requires Settled(g, now, marks, rank, s, n, |g[n].children|)
    requires (s.made[n], s.mtime[n]) == O.Outcome(g, now, marks, rank, n)
    ensures var base := if g[n].after == 0 then now else g[n].after;
            && (s.made[n] == N.UpToDate <==>
                  if g[n].join then NoneMadeHere(g, s, n)
                  else !g[n].forced && !g[n].exec && NoneYoungerHere(g, s, n, g[n].stat) &&
                       (NoneYoungerHere(g, s, n, 0) ==> g[n].stat != 0 && !g[n].doubleDep))
            && (s.made[n] == N.UpToDate ==> s.mtime[n] == if g[n].join then 0 else g[n].stat)
            && (s.made[n] != N.UpToDate ==>
                  && s.made[n] == N.Made && s.mtime[n] >= base && NoneYoungerHere(g, s, n, s.mtime[n])
                  && forall t: nat :: t >= base && NoneYoungerHere(g, s, n, t) ==> s.mtime[n] <= t)
  {
    var k := |g[n].children|;
    OutcomeMadeIs(g, now, marks, rank, s, n, k);
    forall t: nat ensures O.OutcomeTime(g, now, marks, rank, n, k) <= t <==> NoneYoungerHere(g, s, n, t) {
      OutcomeTimeAtMost(g, now, marks, rank, s, n, k, t);
    }
    assert O.OutcomeTime(g, now, marks, rank, n, k) <= s.mtime[n] <==> NoneYoungerHere(g, s, n, s.mtime[n]);
  }
}
