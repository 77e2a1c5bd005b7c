/** What a depth-first make arrives at when nothing fails, and how that compares with what the
    parallel scheduler arrives at. */
module CompatOutcome {
  import opened MakeGraph
  import opened CompatNodes
  import opened CompatSafety
  import J = MakeJobs
  import R = MakeResults
  import T = MakeSteps

  /** What becomes of a node, given its youngest child and whether a child was made. Unlike the
      parallel scheduler's rule a node without commands counts as made, a node is never older than
      its youngest child, and the file of a .JOIN node that is up to date is not looked at. */
  function CompatRule(x: Node, now: nat, childMade: bool, cmtime: nat): (Stage, nat) {
    if OODate(x, childMade, cmtime) then (Made, Remade(x, now, cmtime))
    else (UpToDate, if x.join then 0 else x.stat)
  }

  ghost function Outcome(g: Graph, now: nat, marks: seq<bool>, rank: seq<nat>, n: nat): (Stage, nat)
    requires R.Grounded(g, marks, rank) && n < |g| && marks[n]
    decreases rank[n], 1, 0
  {
    var k := |g[n].children|;
    CompatRule(g[n], now, OutcomeMade(g, now, marks, rank, n, k), OutcomeTime(g, now, marks, rank, n, k))
  }

  ghost function OutcomeMade(g: Graph, now: nat, marks: seq<bool>, rank: seq<nat>, n: nat, k: nat): bool
    requires R.Grounded(g, marks, rank) && n < |g| && marks[n] && k <= |g[n].children|
    decreases rank[n], 0, k
  {
    k > 0 &&
    (OutcomeMade(g, now, marks, rank, n, k - 1) ||
     (var c := g[n].children[k - 1]; !g[c].exec && Outcome(g, now, marks, rank, c).0 == Made))
  }

  ghost function OutcomeTime(g: Graph, now: nat, marks: seq<bool>, rank: seq<nat>, n: nat, k: nat): nat
    requires R.Grounded(g, marks, rank) && n < |g| && marks[n] && k <= |g[n].children|
    decreases rank[n], 0, k
  {
    if k == 0 then 0
    else
      var c := g[n].children[k - 1];
      var r := Outcome(g, now, marks, rank, c);
      Max(OutcomeTime(g, now, marks, rank, n, k - 1), if !g[c].exec || r.0 == UpToDate then r.1 else 0)
  }

  // ----- What the fields of a node that is not done yet stand for.

  predicate Done(s: Fields, x: nat) {
    x < |s.made| && (s.made[x] == Made || s.made[x] == UpToDate)
  }

  /** What the `i`-th child of `x` has told it: a child that is up to date has told all its
      parents, one that was made tells the parents that ask. */
  function Told(g: Graph, s: Fields, x: nat, i: nat): nat
    requires Fits(g, s) && x < |g| && Refs(g, g[x].children) && i < |g[x].children|
  {
    var c := g[x].children[i];
    if Done(s, c) && ((i < s.seen[x] && !g[c].exec) || s.made[c] == UpToDate) then s.mtime[c] else 0
  }

  function Youngest(g: Graph, s: Fields, x: nat, k: nat): nat
    requires Fits(g, s) && x < |g| && Refs(g, g[x].children) && k <= |g[x].children|
  {
    if k == 0 then 0 else Max(Youngest(g, s, x, k - 1), Told(g, s, x, k - 1))
  }

  predicate ToldMade(g: Graph, s: Fields, x: nat, i: nat)
    requires Fits(g, s) && x < |g| && Refs(g, g[x].children)
  {
    i < |g[x].children| && i < s.seen[x] && !g[g[x].children[i]].exec && s.made[g[x].children[i]] == Made
  }

  /** The fields of a node that is not done. */
  ghost predicate Pending(g: Graph, s: Fields, x: nat)
    requires Fits(g, s) && x < |g| && Refs(g, g[x].children)
  {
    && s.mtime[x] == 0 && s.seen[x] <= |g[x].children|
    && s.cmtime[x] == Youngest(g, s, x, |g[x].children|)
    && (s.childMade[x] <==> exists i: nat :: ToldMade(g, s, x, i))
    && (forall i :: 0 <= i < s.seen[x] ==> Done(s, g[x].children[i]))
    && (s.made[x] == Unmade ==> s.seen[x] == 0)
    && (s.made[x] == BeingMade ==> s.make[x])
  }

  predicate ChildrenDone(g: Graph, s: Fields, x: nat)
    requires x < |g|
  {
    forall i :: 0 <= i < |g[x].children| ==> Done(s, g[x].children[i])
  }

  ghost predicate NodeOk(g: Graph, now: nat, marks: seq<bool>, rank: seq<nat>, s: Fields, x: nat)
    requires R.Grounded(g, marks, rank) && LinksIn(g) && Fits(g, s) && x < |g|
  {
    && !Bad(s.made[x])
    && (Done(s, x) ==> marks[x] && (s.made[x], s.mtime[x]) == Outcome(g, now, marks, rank, x) && ChildrenDone(g, s, x))
    && (!Done(s, x) ==> LinkedAt(g, x) && Pending(g, s, x))
  }

  ghost predicate Good(g: Graph, now: nat, marks: seq<bool>, rank: seq<nat>, s: Fields) {
    && R.Grounded(g, marks, rank) && LinksIn(g) && Fits(g, s) && !s.stopped
    && forall x: nat {:trigger NodeOk(g, now, marks, rank, s, x)} :: x < |g| ==> NodeOk(g, now, marks, rank, s, x)
  }

  // ----- Folds.

  lemma {:induction false} YoungestSame(g: Graph, s: Fields, s': Fields, x: nat, k: nat)
    requires Fits(g, s) && Fits(g, s') && x < |g| && Refs(g, g[x].children) && k <= |g[x].children|
    requires forall i :: 0 <= i < k ==> Told(g, s', x, i) == Told(g, s, x, i)
    ensures Youngest(g, s', x, k) == Youngest(g, s, x, k)
  {
    if k > 0 { YoungestSame(g, s, s', x, k - 1); }
  }

  /** One child says more than before. */
  lemma {:induction false} YoungestMore(g: Graph, s: Fields, s': Fields, x: nat, j: nat, k: nat)
    requires Fits(g, s) && Fits(g, s') && x < |g| && Refs(g, g[x].children) && j < |g[x].children| &&
             k <= |g[x].children|
    requires forall i :: 0 <= i < k && i != j ==> Told(g, s', x, i) == Told(g, s, x, i)
    requires Told(g, s, x, j) <= Told(g, s', x, j)
    ensures Youngest(g, s', x, k) == if j < k then Max(Youngest(g, s, x, k), Told(g, s', x, j))
            else Youngest(g, s, x, k)
  {
    if k > 0 { YoungestMore(g, s, s', x, j, k - 1); }
  }

  lemma {:induction false} YoungestHas(g: Graph, s: Fields, x: nat, j: nat, k: nat)
    requires Fits(g, s) && x < |g| && Refs(g, g[x].children) && j < k <= |g[x].children|
    ensures Told(g, s, x, j) <= Youngest(g, s, x, k)
  {
    if j < k - 1 { YoungestHas(g, s, x, j, k - 1); }
  }

  /** When all children are done, the fields are the folds of their outcomes. */
  lemma {:induction false} FoldsTime(g: Graph, now: nat, marks: seq<bool>, rank: seq<nat>, s: Fields, x: nat, k: nat)
    requires Good(g, now, marks, rank, s) && x < |g| && marks[x] && LinkedAt(g, x) && k <= |g[x].children|
    requires s.seen[x] == |g[x].children| && ChildrenDone(g, s, x)
    ensures Youngest(g, s, x, k) == OutcomeTime(g, now, marks, rank, x, k)
  {
    if k > 0 {
      FoldsTime(g, now, marks, rank, s, x, k - 1);
      var c := g[x].children[k - 1];
      assert Done(s, c) && NodeOk(g, now, marks, rank, s, c);
    }
  }

  lemma {:induction false} FoldsMade(g: Graph, now: nat, marks: seq<bool>, rank: seq<nat>, s: Fields, x: nat, k: nat)
    requires Good(g, now, marks, rank, s) && x < |g| && marks[x] && LinkedAt(g, x) && k <= |g[x].children|
    requires s.seen[x] == |g[x].children| && ChildrenDone(g, s, x)
    ensures OutcomeMade(g, now, marks, rank, x, k) <==> exists i: nat :: i < k && ToldMade(g, s, x, i)
  {
    if k > 0 {
      FoldsMade(g, now, marks, rank, s, x, k - 1);
      var c := g[x].children[k - 1];
      assert Done(s, c) && NodeOk(g, now, marks, rank, s, c);
      assert ToldMade(g, s, x, k - 1) <==> !g[c].exec && Outcome(g, now, marks, rank, c).0 == Made;
    }
  }

  // ----- A child is done, and its parent `p` has asked for it.

  /** The node `n` ends up, or has ended up, as `s'.made[n]`; `p` has heard of it, and so have all
      parents if it is up to date. */
  ghost predicate Settles(g: Graph, s: Fields, s': Fields, n: nat, p: nat)
    requires LinksIn(g)
  {
    && Fits(g, s) && Fits(g, s') && n < |g| && p < |g|
    && s'.made == s.made[n := s'.made[n]] && s'.mtime == s.mtime[n := s'.mtime[n]]
    && Done(s', n) && (Done(s, n) ==> s'.made[n] == s.made[n] && s'.mtime[n] == s.mtime[n])
    && s'.make == s.make && s'.seen == s.seen[p := s.seen[p] + 1]
    && forall x: nat {:trigger Hears(g, s, s', n, p, x)} :: x < |g| && !Done(s', x) ==> Hears(g, s, s', n, p, x)
  }

  predicate Hears(g: Graph, s: Fields, s': Fields, n: nat, p: nat, x: nat)
    requires Fits(g, s) && Fits(g, s') && n < |g| && p < |g| && x < |g|
  {
    var stamped := (x == p && !g[n].exec) || (s'.made[n] == UpToDate && n in g[x].children);
    && s'.cmtime[x] == Max(s.cmtime[x], if stamped then s'.mtime[n] else 0)
    && s'.childMade[x] == (s.childMade[x] || (x == p && !g[n].exec && s'.made[n] == Made))
  }

  /** It was the next child of `p`; at the top a target asks for itself. */
  predicate Next(g: Graph, s: Fields, n: nat, p: nat)
    requires Fits(g, s) && n < |g| && p < |g|
  {
    p == n || (s.made[p] == BeingMade && s.seen[p] < |g[p].children| && g[p].children[s.seen[p]] == n)
  }

  lemma SettlesTold(g: Graph, now: nat, marks: seq<bool>, rank: seq<nat>, s: Fields, s': Fields, n: nat, p: nat,
                    x: nat, i: nat)
    requires Good(g, now, marks, rank, s) && Settles(g, s, s', n, p) && Next(g, s, n, p)
    requires x < |g| && !Done(s', x) && i < |g[x].children|
    ensures LinkedAt(g, x) && g[x].children[i] < |g|
    ensures Told(g, s', x, i) == if g[x].children[i] != n then Told(g, s, x, i)
                                 else if (x == p && !g[n].exec) || s'.made[n] == UpToDate then s'.mtime[n]
                                 else Told(g, s, x, i)
    ensures ToldMade(g, s', x, i)
            <==> ToldMade(g, s, x, i) || (x == p && g[x].children[i] == n && !g[n].exec && s'.made[n] == Made)
  {
    assert LinkedAt(g, x) && g[x].children[i] in g[x].children;
    assert NodeOk(g, now, marks, rank, s, x) && Pending(g, s, x);
    var c := g[x].children[i];
    if i < s.seen[x] { assert Done(s, c); }
  }

  lemma SettlesYoungest(g: Graph, now: nat, marks: seq<bool>, rank: seq<nat>, s: Fields, s': Fields, n: nat, p: nat,
                        x: nat)
    requires Good(g, now, marks, rank, s) && Settles(g, s, s', n, p) && Next(g, s, n, p)
    requires x < |g| && !Done(s', x)
    ensures LinkedAt(g, x) && s'.cmtime[x] == Youngest(g, s', x, |g[x].children|)
  {
    var cs, k := g[x].children, |g[x].children|;
    assert LinkedAt(g, x) && NodeOk(g, now, marks, rank, s, x) && Hears(g, s, s', n, p, x);
    forall i: nat | i < k ensures Told(g, s', x, i) == if cs[i] != n then Told(g, s, x, i)
                                 else if (x == p && !g[n].exec) || s'.made[n] == UpToDate then s'.mtime[n]
                                 else Told(g, s, x, i)
    {
      SettlesTold(g, now, marks, rank, s, s', n, p, x, i);
    }
    if n in cs {
      var j: nat :| j < k && cs[j] == n;
      forall i: nat | i < k && i != j ensures cs[i] != n { }
      YoungestMore(g, s, s', x, j, k);
      YoungestHas(g, s, x, j, k);
    } else {
      YoungestSame(g, s, s', x, k);
    }
  }

  lemma SettlesNode(g: Graph, now: nat, marks: seq<bool>, rank: seq<nat>, s: Fields, s': Fields, n: nat, p: nat, x: nat)
    requires Good(g, now, marks, rank, s) && Settles(g, s, s', n, p) && Next(g, s, n, p)
    requires x < |g| && !Done(s', x)
    ensures LinkedAt(g, x) && Pending(g, s', x)
  {
    assert LinkedAt(g, x) && NodeOk(g, now, marks, rank, s, x) && Hears(g, s, s', n, p, x);
    SettlesYoungest(g, now, marks, rank, s, s', n, p, x);
    forall i: nat | i < |g[x].children|
      ensures ToldMade(g, s', x, i)
              <==> ToldMade(g, s, x, i) || (x == p && g[x].children[i] == n && !g[n].exec && s'.made[n] == Made)
    {
      SettlesTold(g, now, marks, rank, s, s', n, p, x, i);
    }
    if x == p && !g[n].exec && s'.made[n] == Made { assert ToldMade(g, s', x, s.seen[p]); }
    forall i | 0 <= i < s'.seen[x] ensures Done(s', g[x].children[i]) {
      if i < s.seen[x] { assert Done(s, g[x].children[i]); }
    }
  }

  lemma SettlesGood(g: Graph, now: nat, marks: seq<bool>, rank: seq<nat>, s: Fields, s': Fields, n: nat, p: nat)
    requires Good(g, now, marks, rank, s) && Settles(g, s, s', n, p) && Next(g, s, n, p) && !s'.stopped
    requires marks[n] && (s'.made[n], s'.mtime[n]) == Outcome(g, now, marks, rank, n) && ChildrenDone(g, s, n)
    ensures Good(g, now, marks, rank, s')
  {
    forall x: nat | x < |g| ensures NodeOk(g, now, marks, rank, s', x) {
      assert NodeOk(g, now, marks, rank, s, x);
      if !Done(s', x) { SettlesNode(g, now, marks, rank, s, s', n, p, x); }
    }
  }

  lemma {:induction false} StampAllAt(g: Graph, s: Fields, n: nat, k: nat, x: nat)
    requires Fits(g, s) && n < |g| && Refs(g, g[n].parents) && k <= |g[n].parents| && x < |g|
    ensures StampAll(g, s, n, k).cmtime[x] == if Among(g[n].parents, k, x) then Max(s.cmtime[x], s.mtime[n])
            else s.cmtime[x]
  {
    if k > 0 { StampAllAt(g, s, n, k - 1, x); }
  }

  /** A node all of whose children are done is finished as the rule says. */
  lemma FinishSettles(g: Graph, mode: Mode, marks: seq<bool>, rank: seq<nat>, s: Fields, n: nat, p: nat,
                      before: seq<Stage>)
    requires Linked(g) && Good(g, mode.now, marks, rank, s) && n < |g| && p < |g| && marks[n] && n !in mode.fails
    requires s.made[n] == BeingMade && s.seen[n] == |g[n].children| && Next(g, s, n, p)
    ensures var s' := Asked(Finish(g, mode, s, n, p, before), p);
            && Settles(g, s, s', n, p) && !s'.stopped && ChildrenDone(g, s, n)
            && (s'.made[n], s'.mtime[n]) == Outcome(g, mode.now, marks, rank, n)
  {
    assert LinkedAt(g, n) && NodeOk(g, mode.now, marks, rank, s, n);
    var k := |g[n].children|;
    FoldsTime(g, mode.now, marks, rank, s, n, k);
    FoldsMade(g, mode.now, marks, rank, s, n, k);
    if OutOfDate(g, s, n) {
      RunSettles(g, mode, s, n, p, before);
    } else {
      QuietSettles(g, mode, s, n, p, before);
    }
  }

  lemma RunSettles(g: Graph, mode: Mode, s: Fields, n: nat, p: nat, before: seq<Stage>)
    requires Linked(g) && Fits(g, s) && n < |g| && p < |g| && s.made[n] == BeingMade && n !in mode.fails && !s.stopped
    ensures var s' := Asked(RunCommands(g, mode, Look(g, s, n), n, p, before), p);
            Settles(g, s, s', n, p) && !s'.stopped && s'.made[n] == Made &&
              s'.mtime[n] == Remade(g[n], mode.now, s.cmtime[n])
  {
    var s' := Asked(RunCommands(g, mode, Look(g, s, n), n, p, before), p);
    assert s.mtime[n := s.mtime[n]] == s.mtime;
    forall x: nat | x < |g| && !Done(s', x) ensures Hears(g, s, s', n, p, x) { }
  }

  lemma QuietSettles(g: Graph, mode: Mode, s: Fields, n: nat, p: nat, before: seq<Stage>)
    requires Linked(g) && Fits(g, s) && n < |g| && p < |g| && s.made[n] == BeingMade && s.make[n] && !s.stopped
    requires !OutOfDate(g, s, n) && Next(g, s, n, p)
    ensures var s' := Asked(Finish(g, mode, s, n, p, before), p);
            Settles(g, s, s', n, p) && !s'.stopped && s'.made[n] == UpToDate && s'.mtime[n] == Look(g, s, n).mtime[n]
  {
    var s' := Asked(Finish(g, mode, s, n, p, before), p);
    assert LinkedAt(g, n) && LinkedAt(g, p);
    assert s.mtime[n := s.mtime[n]] == s.mtime;
    forall x: nat | x < |g| && !Done(s', x) ensures Hears(g, s, s', n, p, x) {
      StampAllAt(g, Look(g, s, n), n, |g[n].parents|, x);
      AmongAll(g[n].parents, x);
    }
  }

  lemma AgainSettles(g: Graph, now: nat, marks: seq<bool>, rank: seq<nat>, s: Fields, n: nat, p: nat)
    requires Good(g, now, marks, rank, s) && n < |g| && p < |g| && Done(s, n)
    ensures Settles(g, s, Asked(Again(g, s, n, p), p), n, p)
  {
    var s' := Asked(Again(g, s, n, p), p);
    assert s.made[n := s.made[n]] == s.made && s.mtime[n := s.mtime[n]] == s.mtime;
    forall x: nat | x < |g| && !Done(s', x) ensures Hears(g, s, s', n, p, x) {
      assert NodeOk(g, now, marks, rank, s, x) && LinkedAt(g, x);
      if n in g[x].children {
        var j: nat :| j < |g[x].children| && g[x].children[j] == n;
        YoungestHas(g, s, x, j, |g[x].children|);
      }
    }
  }

  // ----- The recursion.

  /** The nodes that are being made are those on the way down to `n`. */
  predicate Above(s: Fields, rank: seq<nat>, r: nat) {
    forall x :: 0 <= x < |s.made| && x < |rank| && s.made[x] == BeingMade ==> rank[x] >= r
  }

  /** The nodes on the way down are as far as they were, `p` one child further. */
  predicate SameStack(s: Fields, s': Fields, p: nat, k: nat) {
    && |s.made| == |s'.made| == |s.seen| == |s'.seen|
    && (forall x :: 0 <= x < |s.made| ==> (s'.made[x] == BeingMade <==> s.made[x] == BeingMade))
    && (forall x :: 0 <= x < |s.made| && s.made[x] == BeingMade ==> s'.seen[x] == s.seen[x] + if x == p then k else 0)
  }

  /** None of the marked nodes fails. */
  predicate NoneFails(mode: Mode, marks: seq<bool>) {
    forall x :: x in mode.fails && x < |marks| ==> !marks[x]
  }

  lemma EnterGood(g: Graph, now: nat, marks: seq<bool>, rank: seq<nat>, s: Fields, n: nat)
    requires Good(g, now, marks, rank, s) && n < |g| && s.made[n] == Unmade
    ensures Good(g, now, marks, rank, Enter(s, n)) && Enter(s, n).seen[n] == 0
  {
    var s' := Enter(s, n);
    forall x: nat | x < |g| ensures NodeOk(g, now, marks, rank, s', x) {
      assert NodeOk(g, now, marks, rank, s, x) && LinkedAt(g, x);
      forall i | 0 <= i < |g[x].children| ensures Told(g, s', x, i) == Told(g, s, x, i) { }
      YoungestSame(g, s, s', x, |g[x].children|);
      forall i: nat ensures ToldMade(g, s', x, i) == ToldMade(g, s, x, i) { }
      forall i | 0 <= i < |g[x].children| && Done(s, g[x].children[i]) ensures Done(s', g[x].children[i]) { }
    }
    assert NodeOk(g, now, marks, rank, s, n);
  }

  lemma AgainGood(g: Graph, now: nat, marks: seq<bool>, rank: seq<nat>, s: Fields, n: nat, p: nat)
    requires Good(g, now, marks, rank, s) && n < |g| && p < |g| && Done(s, n) && Next(g, s, n, p)
    ensures var s' := Asked(Again(g, s, n, p), p);
            Good(g, now, marks, rank, s') && Done(s', n) && SameStack(s, s', p, 1)
  {
    assert NodeOk(g, now, marks, rank, s, n);
    AgainSettles(g, now, marks, rank, s, n, p);
    SettlesGood(g, now, marks, rank, s, Asked(Again(g, s, n, p), p), n, p);
  }

  /** From where a node is entered to where it is done. */
  lemma FinishGood(g: Graph, mode: Mode, marks: seq<bool>, rank: seq<nat>, s: Fields, s1: Fields, n: nat, p: nat)
    requires Linked(g) && Good(g, mode.now, marks, rank, s1) && n < |g| && p < |g| && marks[n] && n !in mode.fails
    requires Fits(g, s) && s.made[n] == Unmade && s.seen[n] == 0 && Next(g, s, n, p)
    requires SameStack(Enter(s, n), s1, n, |g[n].children|)
    ensures var s' := Asked(Finish(g, mode, s1, n, p, s.made), p);
            Good(g, mode.now, marks, rank, s') && Done(s', n) && SameStack(s, s', p, 1)
  {
    assert Enter(s, n).made[n] == BeingMade;
    FinishSettles(g, mode, marks, rank, s1, n, p, s.made);
    SettlesGood(g, mode.now, marks, rank, s1, Asked(Finish(g, mode, s1, n, p, s.made), p), n, p);
  }

  lemma {:induction false} CompatGood(g: Graph, mode: Mode, marks: seq<bool>, rank: seq<nat>, s: Fields, n: nat, p: nat)
    requires Linked(g) && Good(g, mode.now, marks, rank, s) && n < |g| && p < |g| && marks[n] && NoneFails(mode, marks)
    requires Next(g, s, n, p) && Above(s, rank, rank[n] + 1)
    ensures var s' := CompatMake(g, mode, s, n, p);
            Good(g, mode.now, marks, rank, s') && Done(s', n) && SameStack(s, s', p, 1)
    decreases Left(s.made), 1, 0
  {
    assert NodeOk(g, mode.now, marks, rank, s, n);
    if s.made[n] != Unmade {
      AgainGood(g, mode.now, marks, rank, s, n, p);
    } else {
      LeftSet(s.made, n, BeingMade);
      EnterGood(g, mode.now, marks, rank, s, n);
      var s1 := Children(g, mode, Enter(s, n), n, |g[n].children|);
      ChildrenGood(g, mode, marks, rank, Enter(s, n), n, |g[n].children|);
      FinishGood(g, mode, marks, rank, s, s1, n, p);
    }
  }

  lemma {:induction false} ChildrenGood(g: Graph, mode: Mode, marks: seq<bool>, rank: seq<nat>, s: Fields, n: nat,
                                        k: nat)
    requires Linked(g) && Good(g, mode.now, marks, rank, s) && n < |g| && marks[n] && NoneFails(mode, marks)
    requires s.made[n] == BeingMade && s.seen[n] == 0 && k <= |g[n].children| && Above(s, rank, rank[n])
    ensures var s' := Children(g, mode, s, n, k);
            Good(g, mode.now, marks, rank, s') && SameStack(s, s', n, k)
    decreases Left(s.made), 2, k
  {
    hide NodeOk, CompatMake, NoneFails;
    if k > 0 {
      var t := Children(g, mode, s, n, k - 1);
      ChildrenGood(g, mode, marks, rank, s, n, k - 1);
      NextChild(g, marks, rank, s, t, n, k);
      var u := CompatMake(g, mode, t, g[n].children[k - 1], n);
      CompatGood(g, mode, marks, rank, t, g[n].children[k - 1], n);
      StackStep(s, t, u, n, k);
    }
  }

  lemma NextChild(g: Graph, marks: seq<bool>, rank: seq<nat>, s: Fields, t: Fields, n: nat, k: nat)
    requires LinksIn(g) && R.Grounded(g, marks, rank) && Fits(g, s) && Fits(g, t) && n < |g| && marks[n] &&
             0 < k <= |g[n].children|
    requires s.made[n] == BeingMade && s.seen[n] == 0 && Above(s, rank, rank[n]) && SameStack(s, t, n, k - 1)
    ensures var c := g[n].children[k - 1];
            c < |g| && marks[c] && Next(g, t, c, n) && Above(t, rank, rank[c] + 1)
  {
  }

  lemma StackStep(s: Fields, t: Fields, u: Fields, n: nat, k: nat)
    requires k > 0 && SameStack(s, t, n, k - 1) && SameStack(t, u, n, 1)
    ensures SameStack(s, u, n, k)
  {
  }

  lemma FreshGood(g: Graph, now: nat, marks: seq<bool>, rank: seq<nat>, s: Fields)
    requires Linked(g) && R.Grounded(g, marks, rank) && Fresh(g, s)
    ensures Good(g, now, marks, rank, s)
  {
    forall x: nat | x < |g| ensures NodeOk(g, now, marks, rank, s, x) {
      assert LinkedAt(g, x);
      NothingTold(g, s, x, |g[x].children|);
    }
  }

  lemma {:induction false} NothingTold(g: Graph, s: Fields, x: nat, k: nat)
    requires Fresh(g, s) && x < |g| && Refs(g, g[x].children) && k <= |g[x].children|
    ensures Youngest(g, s, x, k) == 0
  {
    if k > 0 {
      NothingTold(g, s, x, k - 1);
      assert s.made[g[x].children[k - 1]] == Unmade;
    }
  }

  /** MAIN: on a graph without cycles on which no commands fail, a depth-first make does all its
      targets and everything below them, each with the outcome that the rule gives for the
      outcomes of its children. */
  lemma {:induction false} MakesAll(g: Graph, mode: Mode, marks: seq<bool>, rank: seq<nat>, s: Fields, targs: seq<nat>)
    requires Linked(g) && R.Grounded(g, marks, rank) && Fresh(g, s) && Refs(g, targs) && NoneFails(mode, marks)
    requires forall t :: t in targs ==> t < |g| && marks[t]
    ensures var s' := Targets(g, mode, s, targs);
            && Good(g, mode.now, marks, rank, s') && (forall x :: 0 <= x < |g| ==> s'.made[x] != BeingMade)
            && (forall t :: t in targs ==> Done(s', t))
            && (forall x :: 0 <= x < |g| && Done(s', x) ==>
                  marks[x] && (s'.made[x], s'.mtime[x]) == Outcome(g, mode.now, marks, rank, x) &&
                    ChildrenDone(g, s', x))
  {
    hide NodeOk, Onward, NewLaunches, ChildrenDone, Outcome;
    if targs == [] {
      FreshGood(g, mode.now, marks, rank, s);
    } else {
      var k := |targs| - 1;
      var t := Targets(g, mode, s, targs[..k]);
      MakesAll(g, mode, marks, rank, s, targs[..k]);
      CompatGood(g, mode, marks, rank, t, targs[k], targs[k]);
      CompatGoes(g, mode, t, targs[k], targs[k]);
      TargetsDone(g, t, CompatMake(g, mode, t, targs[k], targs[k]), targs);
    }
    DoneRight(g, mode.now, marks, rank, Targets(g, mode, s, targs));
  }

  lemma DoneRight(g: Graph, now: nat, marks: seq<bool>, rank: seq<nat>, s: Fields)
    requires Good(g, now, marks, rank, s)
    ensures forall x :: 0 <= x < |g| && Done(s, x) ==>
              marks[x] && (s.made[x], s.mtime[x]) == Outcome(g, now, marks, rank, x) && ChildrenDone(g, s, x)
  {
    forall x | 0 <= x < |g| && Done(s, x)
      ensures marks[x] && (s.made[x], s.mtime[x]) == Outcome(g, now, marks, rank, x) && ChildrenDone(g, s, x)
    {
      assert NodeOk(g, now, marks, rank, s, x);
    }
  }

  lemma TargetsDone(g: Graph, t: Fields, u: Fields, targs: seq<nat>)
    requires targs != [] && Goes(g, t, u) && Done(u, targs[|targs| - 1])
    requires forall x :: x in targs[..|targs| - 1] ==> Done(t, x)
    ensures forall x :: x in targs ==> Done(u, x)
  {
    forall x | x in targs ensures Done(u, x) {
      if x in targs[..|targs| - 1] { assert Done(t, x) && Onward(t, u, x); }
    }
  }

  // ----- The two ways of making compared.

  /** A result of the parallel scheduler. */
  function Stages(r: (R.MakeGraph.Made, nat)): (Stage, nat) {
    ((match r.0 case UNMADE => Unmade case MADE => Made case UPTODATE => UpToDate), r.1)
  }

  /** The two rules agree exactly on nodes that are up to date, without a time if they are .JOIN nodes,
      or have commands which leave them no older than their youngest child. */
  lemma RulesAgree(x: Node, now: nat, childMade: bool, cmtime: nat)
    ensures CompatRule(x, now, childMade, cmtime) == Stages(Rule(x, now, childMade, cmtime))
            <==> if OODate(x, childMade, cmtime) then x.runs && cmtime <= if x.after == 0 then now else x.after
                 else !x.join || x.stat == 0
  {
  }

  ghost predicate Steady(g: Graph, now: nat, marks: seq<bool>, rank: seq<nat>, n: nat)
    requires R.Grounded(g, marks, rank)
  {
    n < |g| && marks[n] ==>
      var k := |g[n].children|;
      var childMade, cmtime := R.OutcomeMade(g, now, marks, rank, n, k), R.OutcomeTime(g, now, marks, rank, n, k);
      if OODate(g[n], childMade, cmtime) then g[n].runs && cmtime <= if g[n].after == 0 then now else g[n].after
      else !g[n].join || g[n].stat == 0
  }

  lemma {:induction false} FoldsAgree(g: Graph, now: nat, marks: seq<bool>, rank: seq<nat>, n: nat, k: nat)
    requires R.Grounded(g, marks, rank) && n < |g| && marks[n] && k <= |g[n].children|
    requires forall i :: 0 <= i < k ==> OutcomesAgree(g, now, marks, rank, g[n].children[i])
    ensures OutcomeMade(g, now, marks, rank, n, k) == R.OutcomeMade(g, now, marks, rank, n, k)
    ensures OutcomeTime(g, now, marks, rank, n, k) == R.OutcomeTime(g, now, marks, rank, n, k)
  {
    if k > 0 {
      FoldsAgree(g, now, marks, rank, n, k - 1);
      assert OutcomesAgree(g, now, marks, rank, g[n].children[k - 1]);
    }
  }

  ghost predicate OutcomesAgree(g: Graph, now: nat, marks: seq<bool>, rank: seq<nat>, n: nat)
    requires R.Grounded(g, marks, rank)
  {
    n < |g| && marks[n] ==> Outcome(g, now, marks, rank, n) == Stages(R.Outcome(g, now, marks, rank, n))
  }

  lemma {:induction false} ModesAgree(g: Graph, now: nat, marks: seq<bool>, rank: seq<nat>, n: nat)
    requires R.Grounded(g, marks, rank) && n < |g| && marks[n]
    requires forall x: nat :: x < |g| ==> Steady(g, now, marks, rank, x)
    ensures OutcomesAgree(g, now, marks, rank, n)
    decreases rank[n]
  {
    forall i | 0 <= i < |g[n].children| ensures OutcomesAgree(g, now, marks, rank, g[n].children[i]) {
      ModesAgree(g, now, marks, rank, g[n].children[i]);
    }
    AgreesIfSteady(g, now, marks, rank, n);
  }

  /** A node whose children agree. */
  lemma AgreesIfSteady(g: Graph, now: nat, marks: seq<bool>, rank: seq<nat>, n: nat)
    requires R.Grounded(g, marks, rank) && n < |g| && marks[n]
    requires forall i :: 0 <= i < |g[n].children| ==> OutcomesAgree(g, now, marks, rank, g[n].children[i])
    ensures OutcomesAgree(g, now, marks, rank, n) <==> Steady(g, now, marks, rank, n)
  {
    var k := |g[n].children|;
    FoldsAgree(g, now, marks, rank, n, k);
    RulesAgree(g[n], now, OutcomeMade(g, now, marks, rank, n, k), OutcomeTime(g, now, marks, rank, n, k));
  }

  /** MAIN: both ways of making arrive at the same result on every node exactly if every node
      that is out of date has commands which leave it no older than its youngest child, and every
      .JOIN node that is up to date has no file. */
  lemma ModesAgreeIff(g: Graph, now: nat, marks: seq<bool>, rank: seq<nat>)
    requires R.Grounded(g, marks, rank)
    ensures (forall n: nat :: n < |g| ==> OutcomesAgree(g, now, marks, rank, n))
            <==> forall n: nat :: n < |g| ==> Steady(g, now, marks, rank, n)
  {
    if forall n: nat :: n < |g| ==> OutcomesAgree(g, now, marks, rank, n) {
      forall n: nat | n < |g| ensures Steady(g, now, marks, rank, n) {
        if marks[n] {
          forall i | 0 <= i < |g[n].children| ensures OutcomesAgree(g, now, marks, rank, g[n].children[i]) { }
          AgreesIfSteady(g, now, marks, rank, n);
        }
      }
    }
    if forall n: nat :: n < |g| ==> Steady(g, now, marks, rank, n) {
      forall n: nat | n < |g| ensures OutcomesAgree(g, now, marks, rank, n) {
        if marks[n] { ModesAgree(g, now, marks, rank, n); }
      }
    }
  }

  /** MAIN: a node that some parallel make, with whatever jobs beside it, and a depth-first make
      have both done is left by both in the same state. */
  lemma MakesAgree(g: Graph, cf: J.Config, par: J.State, mode: Mode, rank: seq<nat>, s: Fields, targs: seq<nat>, n: nat)
    requires Linked(g) && T.Safe(g, cf, par) && R.Grounded(g, par.m.make, rank) && mode.now == cf.now
    requires Fresh(g, s) && Refs(g, targs) && NoneFails(mode, par.m.make)
    requires forall t :: t in targs ==> t < |g| && par.m.make[t]
    requires forall x: nat :: x < |g| ==> Steady(g, cf.now, par.m.make, rank, x)
    requires n < |g| && n in par.m.updated && Done(Targets(g, mode, s, targs), n)
    ensures var t := Targets(g, mode, s, targs);
            n < |par.m.made| && n < |par.m.mtime| && (t.made[n], t.mtime[n]) == Stages((par.m.made[n], par.m.mtime[n]))
  {
    MakesAll(g, mode, par.m.make, rank, s, targs);
    R.OutcomeHolds(g, cf, par, rank, n);
    ModesAgree(g, cf.now, par.m.make, rank, n);
  }
}
