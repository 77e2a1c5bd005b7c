/** What every step of the scheduler keeps, and what `Make_Update` does to it. */
module MakeInvariant {
  import opened MakeGraph
  import opened MakeNodes

  // ----- What the counters and stamps of a parent stand for.

  /** How many of these children are still to come. */
  function Left(cs: seq<nat>, updated: set<nat>): nat {
    if cs == [] then 0
    else Left(cs[..|cs| - 1], updated) + if cs[|cs| - 1] in updated then 0 else 1
  }

  /** A child that is .EXEC does not pass its time on, unless it was up to date. */
  predicate Stamps(g: Graph, m: Marks, c: nat)
    requires Sized(g, m) && c < |g|
  {
    c in m.updated && (!g[c].exec || m.made[c] == UPTODATE)
  }

  /** The youngest of these children, 0 if there is none. */
  function Youngest(g: Graph, m: Marks, cs: seq<nat>): nat
    requires Sized(g, m) && Refs(g, cs)
  {
    if cs == [] then 0
    else
      assert cs[|cs| - 1] in cs;
      Max(Youngest(g, m, cs[..|cs| - 1]), if Stamps(g, m, cs[|cs| - 1]) then m.mtime[cs[|cs| - 1]] else 0)
  }

  predicate MadeChild(g: Graph, m: Marks, c: nat)
    requires Sized(g, m)
  {
    c < |g| && c in m.updated && !g[c].exec && m.made[c] == MADE
  }

  lemma {:induction false} LeftAll(cs: seq<nat>, updated: set<nat>)
    ensures Left(cs, updated) == 0 <==> forall c :: c in cs ==> c in updated
    ensures Left(cs, {}) == |cs|
  {
    if cs != [] { LeftAll(cs[..|cs| - 1], updated); }
  }

  lemma {:induction false} LeftAdd(cs: seq<nat>, updated: set<nat>, c: nat)
    requires Distinct(cs) && c !in updated
    ensures Left(cs, updated + {c}) == Left(cs, updated) - if c in cs then 1 else 0
  {
    if cs != [] { LeftAdd(cs[..|cs| - 1], updated, c); }
  }

  /** The stamp of a parent changes with the node `c` just finished, and with no other. */
  lemma {:induction false} YoungestAdd(g: Graph, m: Marks, m': Marks, cs: seq<nat>, c: nat)
    requires Sized(g, m) && Sized(g, m') && Refs(g, cs) && Distinct(cs) && c < |g| && c !in m.updated
    requires m'.updated == m.updated + {c}
    requires forall x :: 0 <= x < |g| && x != c ==> m'.made[x] == m.made[x] && m'.mtime[x] == m.mtime[x]
    ensures Youngest(g, m', cs) ==
            if c in cs && Stamps(g, m', c) then Max(Youngest(g, m, cs), m'.mtime[c]) else Youngest(g, m, cs)
  {
    if cs != [] { YoungestAdd(g, m, m', cs[..|cs| - 1], c); }
  }

  // ----- The invariant, node by node.

  predicate Counted(g: Graph, m: Marks, n: nat)
    requires Sized(g, m)
  {
    n < |g| && m.make[n] ==>
      Refs(g, g[n].children) && m.unmade[n] == Left(g[n].children, m.updated)
  }

  predicate Stamped(g: Graph, m: Marks, n: nat)
    requires Sized(g, m)
  {
    n < |g| && m.make[n] ==>
      Refs(g, g[n].children) && m.cmtime[n] == Youngest(g, m, g[n].children) &&
      (m.childMade[n] <==> exists c :: c in g[n].children && MadeChild(g, m, c))
  }

  /** A node that is done has followed the rule; one that is not is untouched. */
  predicate Ruled(g: Graph, now: nat, m: Marks, n: nat)
    requires Sized(g, m)
  {
    n < |g| ==>
      if n in m.updated then (m.made[n], m.mtime[n]) == Rule(g[n], now, m.childMade[n], m.cmtime[n])
      else m.made[n] == UNMADE && (m.make[n] ==> m.mtime[n] == g[n].stat)
  }

  /** A node in the queue is ready and was not examined. */
  predicate Ready(g: Graph, m: Marks, n: nat)
    requires Sized(g, m)
  {
    n < |g| && m.make[n] && m.unmade[n] == 0 && n !in m.examined
  }

  /** A ready node that is not in the queue waits for a predecessor. */
  predicate Waits(g: Graph, m: Marks, n: nat)
    requires Sized(g, m)
  {
    Ready(g, m, n) && n !in m.queue ==> Blocked(g, m, n)
  }

  /** When the `i`-th node was examined, its children and marked predecessors were done. */
  predicate InOrder(g: Graph, m: Marks, i: nat)
    requires Sized(g, m)
  {
    i < |m.examined| ==>
      var n := m.examined[i];
      && n < |g| && m.make[n]
      && (forall c :: c in g[n].children ==> c in m.updated && c in m.examined[..i])
      && (forall p :: p in g[n].preds && p < |g| && m.make[p] ==>
            p in m.updated && m.made[p] != UNMADE && p in m.examined[..i])
  }

  function CountTrue(s: seq<bool>): nat {
    if s == [] then 0 else CountTrue(s[..|s| - 1]) + if s[|s| - 1] then 1 else 0
  }

  /** All children of a marked node are marked. */
  predicate Closed(g: Graph, m: Marks, n: nat)
    requires Sized(g, m)
  {
    n < |g| && m.make[n] ==> forall c :: c in g[n].children ==> c < |g| && m.make[c]
  }

  ghost predicate Inv(g: Graph, now: nat, m: Marks) {
    && Sized(g, m)
    && (forall n: nat {:trigger Closed(g, m, n)} :: Closed(g, m, n))
    && (forall n: nat {:trigger Counted(g, m, n)} :: Counted(g, m, n))
    && (forall n: nat {:trigger Stamped(g, m, n)} :: Stamped(g, m, n))
    && (forall n: nat {:trigger Ruled(g, now, m, n)} :: Ruled(g, now, m, n))
    && (forall n: nat {:trigger Waits(g, m, n)} :: Waits(g, m, n))
    && (forall i: nat {:trigger InOrder(g, m, i)} :: InOrder(g, m, i))
    && (forall n: nat :: n in m.queue ==> Ready(g, m, n))
    && Distinct(m.queue) && Distinct(m.examined)
    && (forall n: nat :: n in m.updated ==> n in m.examined)
    && m.numNodes + |m.examined| == CountTrue(m.make)
  }

  // ----- The loops of Make_Update, in closed form.

  predicate Told(g: Graph, m: Marks, c: nat, k: nat, p: nat)
    requires Sized(g, m) && c < |g| && k <= |g[c].parents| && p < |g|
  {
    m.make[p] && Among(g[c].parents, k, p)
  }

  lemma {:induction false} TellParentsFrame(g: Graph, m: Marks, c: nat, k: nat)
    requires Sized(g, m) && c < |g| && LinkedAt(g, c) && k <= |g[c].parents|
    ensures var m' := TellParents(g, m, c, k);
            m' == m.(unmade := m'.unmade, childMade := m'.childMade, cmtime := m'.cmtime, queue := m'.queue)
  {
    if k > 0 { TellParentsFrame(g, m, c, k - 1); }
  }

  /** What one parent is told, seen from node `p`. */
  lemma TellParentAt(g: Graph, m: Marks, c: nat, q: nat, p: nat)
    requires Sized(g, m) && c < |g| && q < |g| && p < |g|
    ensures var m' := TellParent(g, m, c, q); var told := m.make[p] && p == q;
            && m'.unmade[p] == (if told then m.unmade[p] - 1 else m.unmade[p])
            && m'.childMade[p] == (m.childMade[p] || (told && !g[c].exec && m.made[c] == MADE))
            && m'.cmtime[p] == (if told && !g[c].exec then Max(m.cmtime[p], m.mtime[c]) else m.cmtime[p])
            && (p in m'.queue <==> p in m.queue || (told && m'.unmade[p] == 0))
  {
  }

  /** What the loop does to node `p`. */
  lemma {:induction false} TellParentsAt(g: Graph, m: Marks, c: nat, k: nat, p: nat)
    requires Sized(g, m) && c < |g| && LinkedAt(g, c) && k <= |g[c].parents| && p < |g|
    ensures var m' := TellParents(g, m, c, k); var told := Told(g, m, c, k, p);
            && m'.unmade[p] == m.unmade[p] - (if told then 1 else 0)
            && m'.childMade[p] == (m.childMade[p] || (told && !g[c].exec && m.made[c] == MADE))
            && m'.cmtime[p] == (if told && !g[c].exec then Max(m.cmtime[p], m.mtime[c]) else m.cmtime[p])
            && (p in m'.queue <==> p in m.queue || (told && m'.unmade[p] == 0))
  {
    if k > 0 {
      var m1, q := TellParents(g, m, c, k - 1), g[c].parents[k - 1];
      TellParentsAt(g, m, c, k - 1, p);
      TellParentsFrame(g, m, c, k - 1);
      TellParentAt(g, m1, c, q, p);
      AmongNew(g[c].parents, k - 1);
    }
  }

  lemma {:induction false} TellParentsQueue(g: Graph, m: Marks, c: nat, k: nat)
    requires Sized(g, m) && c < |g| && LinkedAt(g, c) && k <= |g[c].parents|
    requires Distinct(m.queue) && forall p :: p in m.queue ==> p !in g[c].parents
    ensures Distinct(TellParents(g, m, c, k).queue)
    ensures forall p :: p in TellParents(g, m, c, k).queue ==> p in m.queue || Among(g[c].parents, k, p)
  {
    if k > 0 {
      TellParentsQueue(g, m, c, k - 1);
      AmongNew(g[c].parents, k - 1);
      assert g[c].parents[k - 1] in g[c].parents;
    }
  }

  lemma {:induction false} WakeSuccessorsShape(g: Graph, m: Marks, c: nat, k: nat)
    requires Sized(g, m) && c < |g| && LinkedAt(g, c) && k <= |g[c].succs|
    ensures WakeSuccessors(g, m, c, k) == m.(queue := WakeSuccessors(g, m, c, k).queue)
    ensures Distinct(m.queue) ==> Distinct(WakeSuccessors(g, m, c, k).queue)
  {
    if k > 0 { WakeSuccessorsShape(g, m, c, k - 1); }
  }

  lemma {:induction false} WakeSuccessorsAt(g: Graph, m: Marks, c: nat, k: nat, s: nat)
    requires Sized(g, m) && c < |g| && LinkedAt(g, c) && k <= |g[c].succs| && s < |g|
    ensures s in WakeSuccessors(g, m, c, k).queue <==>
              s in m.queue || (Among(g[c].succs, k, s) && m.make[s] && m.unmade[s] == 0 && m.made[s] == UNMADE)
  {
    if k > 0 {
      WakeSuccessorsShape(g, m, c, k - 1);
      WakeSuccessorsAt(g, m, c, k - 1, s);
    }
  }
}
