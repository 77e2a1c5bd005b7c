/** `Make_Update` keeps the invariant. */
module MakeUpdate {
  import opened MakeGraph
  import opened MakeNodes
  import opened MakeInvariant

  // ----- What Make_Update does, node by node.

  predicate ToldBy(g: Graph, m: Marks, c: nat, p: nat)
    requires Sized(g, m)
  {
    c < |g| && p < |g| && m.make[p] && p in g[c].parents
  }

  predicate CountersAt(g: Graph, m: Marks, c: nat, m': Marks, p: nat)
    requires Sized(g, m) && Sized(g, m') && c < |g|
  {
    p < |g| ==>
      var told := ToldBy(g, m, c, p);
      && m'.unmade[p] == m.unmade[p] - (if told then 1 else 0)
      && m'.childMade[p] == (m.childMade[p] || (told && !g[c].exec && m'.made[c] == MADE))
      && (m.make[p] ==>
            (m'.cmtime[p] ==
              if told && (!g[c].exec || m'.made[c] == UPTODATE) then Max(m.cmtime[p], m'.mtime[c]) else m.cmtime[p]))
      && (p != c ==> m'.made[p] == m.made[p] && m'.mtime[p] == m.mtime[p])
  }

  predicate Joins(g: Graph, m: Marks, c: nat, m': Marks, p: nat)
    requires Sized(g, m) && Sized(g, m') && c < |g|
  {
    p < |g| && m.make[p] && m'.unmade[p] == 0 &&
    (p in g[c].parents || (p in g[c].succs && m'.made[p] == UNMADE))
  }

  predicate QueueAt(g: Graph, m: Marks, c: nat, m': Marks, p: nat)
    requires Sized(g, m) && Sized(g, m') && c < |g|
  {
    p in m'.queue <==> p in m.queue || Joins(g, m, c, m', p)
  }

  /** `m'` is `m` after node `c` is done. */
  ghost predicate Done(g: Graph, m: Marks, c: nat, m': Marks) {
    && Sized(g, m) && Sized(g, m') && c < |g|
    && m'.make == m.make && m'.numNodes == m.numNodes && m'.examined == m.examined
    && m'.updated == m.updated + {c}
    && Distinct(m'.queue)
    && (forall p: nat {:trigger CountersAt(g, m, c, m', p)} :: CountersAt(g, m, c, m', p))
    && (forall p: nat {:trigger QueueAt(g, m, c, m', p)} :: QueueAt(g, m, c, m', p))
  }

  lemma UpdateIsDone(g: Graph, now: nat, m0: Marks, c: nat, v: Made, m: Marks)
    requires Linked(g) && Sized(g, m0) && c < |g| && m == m0.(made := m0.made[c := v]) && v != UPTODATE
    requires Distinct(m0.queue) && forall p :: p in m0.queue ==> p < |g| && p !in g[c].parents
    ensures Done(g, m0, c, Update(g, now, m, c))
    ensures Update(g, now, m, c).made == m.made && Update(g, now, m, c).mtime == Restat(g, now, m, c).mtime
  {
    assert LinkedAt(g, c);
    UpdateFrame(g, now, m, c);
    var m1, m' := Restat(g, now, m, c), Update(g, now, m, c);
    forall p: nat ensures CountersAt(g, m0, c, m', p) { if p < |g| { UpdateAt(g, now, m, c, p); } }
    forall p: nat ensures QueueAt(g, m0, c, m', p) { if p < |g| { UpdateAt(g, now, m, c, p); } }
  }

  lemma UpdateFrame(g: Graph, now: nat, m: Marks, c: nat)
    requires Linked(g) && Sized(g, m) && c < |g| && LinkedAt(g, c)
    requires Distinct(m.queue) && forall p :: p in m.queue ==> p < |g| && p !in g[c].parents
    ensures var m' := Update(g, now, m, c);
            && m'.make == m.make && m'.numNodes == m.numNodes && m'.examined == m.examined
            && m'.updated == m.updated + {c} && m'.made == m.made && m'.mtime == Restat(g, now, m, c).mtime
            && Distinct(m'.queue) && (forall p :: p in m'.queue ==> p < |g|)
  {
    var m1 := Restat(g, now, m, c);
    var m2 := TellParents(g, m1, c, |g[c].parents|);
    TellParentsFrame(g, m1, c, |g[c].parents|);
    TellParentsQueue(g, m1, c, |g[c].parents|);
    forall p | p in m2.queue ensures p < |g| { AmongAll(g[c].parents, p); }
    WakeSuccessorsShape(g, m2, c, |g[c].succs|);
    WakeSuccessorsBelow(g, m2, c, |g[c].succs|);
  }

  lemma {:induction false} WakeSuccessorsBelow(g: Graph, m: Marks, c: nat, k: nat)
    requires Sized(g, m) && c < |g| && LinkedAt(g, c) && k <= |g[c].succs| && forall p :: p in m.queue ==> p < |g|
    ensures forall p :: p in WakeSuccessors(g, m, c, k).queue ==> p < |g|
  {
    if k > 0 { WakeSuccessorsBelow(g, m, c, k - 1); }
  }

  lemma UpdateAt(g: Graph, now: nat, m: Marks, c: nat, p: nat)
    requires Linked(g) && Sized(g, m) && c < |g| && p < |g| && LinkedAt(g, c)
    ensures var m1 := Restat(g, now, m, c); var m' := Update(g, now, m, c); var told := ToldBy(g, m, c, p);
            && m'.unmade[p] == m.unmade[p] - (if told then 1 else 0)
            && m'.childMade[p] == (m.childMade[p] || (told && !g[c].exec && m.made[c] == MADE))
            && m'.cmtime[p] == (if told && !g[c].exec then Max(m.cmtime[p], m1.mtime[c]) else m.cmtime[p])
            && (p in m'.queue <==>
                 (p in m.queue || (told && m'.unmade[p] == 0) ||
                  (p in g[c].succs && m.make[p] && m'.unmade[p] == 0 && m.made[p] == UNMADE)))
  {
    var k, j := |g[c].parents|, |g[c].succs|;
    var m1 := Restat(g, now, m, c);
    var m2 := TellParents(g, m1, c, k);
    AmongAll(g[c].parents, p);
    AmongAll(g[c].succs, p);
    TellParentsFrame(g, m1, c, k);
    TellParentsAt(g, m1, c, k, p);
    WakeSuccessorsShape(g, m2, c, j);
    WakeSuccessorsAt(g, m2, c, j, p);
  }

  lemma {:induction false} StampParentsFrame(g: Graph, m: Marks, n: nat, k: nat)
    requires Sized(g, m) && n < |g| && LinkedAt(g, n) && k <= |g[n].parents|
    ensures StampParents(g, m, n, k) == m.(cmtime := StampParents(g, m, n, k).cmtime)
  {
    if k > 0 { StampParentsFrame(g, m, n, k - 1); }
  }

  lemma {:induction false} StampParentsAt(g: Graph, m: Marks, n: nat, k: nat, p: nat)
    requires Sized(g, m) && n < |g| && LinkedAt(g, n) && k <= |g[n].parents| && p < |g|
    ensures StampParents(g, m, n, k).cmtime[p] == if Among(g[n].parents, k, p) then Max(m.cmtime[p], m.mtime[n])
            else m.cmtime[p]
  {
    if k > 0 {
      StampParentsFrame(g, m, n, k - 1);
      StampParentsAt(g, m, n, k - 1, p);
      AmongNew(g[n].parents, k - 1);
    }
  }

  lemma SettleIsDone(g: Graph, now: nat, m: Marks, c: nat)
    requires Linked(g) && Sized(g, m) && c < |g|
    requires Distinct(m.queue) && forall p :: p in m.queue ==> p < |g| && p !in g[c].parents
    ensures Done(g, m, c, Settle(g, now, m, c))
    ensures Settle(g, now, m, c).made == m.made[c := UPTODATE] && Settle(g, now, m, c).mtime == m.mtime
  {
    assert LinkedAt(g, c);
    var k := |g[c].parents|;
    StampParentsFrame(g, m, c, k);
    var m1 := StampParents(g, m, c, k);
    var m2 := m1.(made := m1.made[c := UPTODATE]);
    var m' := Settle(g, now, m, c);
    UpdateFrame(g, now, m2, c);
    forall p: nat ensures CountersAt(g, m, c, m', p) {
      if p < |g| {
        UpdateAt(g, now, m2, c, p);
        StampParentsAt(g, m, c, k, p);
        AmongAll(g[c].parents, p);
      }
    }
    forall p: nat ensures QueueAt(g, m, c, m', p) { if p < |g| { UpdateAt(g, now, m2, c, p); } }
  }

  // ----- ... and why the invariant survives it.

  /** Node `c` was examined, is now done, and is what the rule says. */
  ghost predicate Finishes(g: Graph, now: nat, m: Marks, c: nat, m': Marks) {
    && Linked(g) && Inv(g, now, m) && Done(g, m, c, m')
    && c in m.examined && c !in m.updated
    && (m'.made[c], m'.mtime[c]) == Rule(g[c], now, m.childMade[c], m.cmtime[c])
  }

  lemma ExaminedMarked(g: Graph, now: nat, m: Marks, n: nat)
    requires Inv(g, now, m) && n in m.examined
    ensures n < |g| && m.make[n]
    ensures forall x :: x in g[n].children ==> x in m.updated
    ensures forall p :: p in g[n].preds && p < |g| && m.make[p] ==> p in m.updated && m.made[p] != UNMADE
  {
    var i :| 0 <= i < |m.examined| && m.examined[i] == n;
    assert InOrder(g, m, i);
  }

  /** A node whose children are all done is not told by `c`. */
  lemma NotTold(g: Graph, now: nat, m: Marks, c: nat, n: nat)
    requires Linked(g) && Inv(g, now, m) && c < |g| && c !in m.updated
    requires n in m.examined || n in m.queue
    ensures n < |g| && m.make[n] && c !in g[n].children && n !in g[c].parents
  {
    if n in m.examined {
      ExaminedMarked(g, now, m, n);
    } else {
      assert Ready(g, m, n) && Counted(g, m, n);
      LeftAll(g[n].children, m.updated);
    }
  }

  lemma KeepsCounted(g: Graph, now: nat, m: Marks, c: nat, m': Marks, n: nat)
    requires Finishes(g, now, m, c, m')
    ensures Counted(g, m', n)
  {
    if n < |g| && m.make[n] {
      assert Counted(g, m, n) && LinkedAt(g, n) && CountersAt(g, m, c, m', n);
      LeftAdd(g[n].children, m.updated, c);
    }
  }

  lemma KeepsStamped(g: Graph, now: nat, m: Marks, c: nat, m': Marks, n: nat)
    requires Finishes(g, now, m, c, m')
    ensures Stamped(g, m', n)
  {
    if n < |g| && m.make[n] {
      assert Stamped(g, m, n) && LinkedAt(g, n) && CountersAt(g, m, c, m', n);
      forall x: nat | x < |g| && x != c ensures m'.made[x] == m.made[x] && m'.mtime[x] == m.mtime[x] {
        assert CountersAt(g, m, c, m', x);
      }
      YoungestAdd(g, m, m', g[n].children, c);
      assert ToldBy(g, m, c, n) <==> c in g[n].children;
      forall x: nat
        ensures MadeChild(g, m', x) <==> MadeChild(g, m, x) || (x == c && !g[c].exec && m'.made[c] == MADE)
      {
      }
    }
  }

  lemma KeepsRuled(g: Graph, now: nat, m: Marks, c: nat, m': Marks, n: nat)
    requires Finishes(g, now, m, c, m')
    ensures Ruled(g, now, m', n)
  {
    if n < |g| {
      assert Ruled(g, now, m, n) && CountersAt(g, m, c, m', n);
      if n in m'.updated { NotTold(g, now, m, c, n); ExaminedMarked(g, now, m, n); }
    }
  }

  lemma KeepsReady(g: Graph, now: nat, m: Marks, c: nat, m': Marks, n: nat)
    requires Finishes(g, now, m, c, m') && n in m'.queue
    ensures Ready(g, m', n)
  {
    assert QueueAt(g, m, c, m', n) && CountersAt(g, m, c, m', n);
    ExaminedMarked(g, now, m, c);
    if n in m.queue {
      NotTold(g, now, m, c, n);
      assert Ready(g, m, n);
    } else if n in m.examined {
      ExaminedMarked(g, now, m, n);
      assert false;
    }
  }

  lemma KeepsWaits(g: Graph, now: nat, m: Marks, c: nat, m': Marks, n: nat)
    requires Finishes(g, now, m, c, m')
    ensures Waits(g, m', n)
  {
    if Ready(g, m', n) && n !in m'.queue {
      assert QueueAt(g, m, c, m', n) && CountersAt(g, m, c, m', n) && Waits(g, m, n) && Ruled(g, now, m, n);
      var p :| p in g[n].preds && Blocks(m, p);
      assert CountersAt(g, m, c, m', p);
      assert LinkedAt(g, n);
      assert Blocks(m', p);
    }
  }

  lemma KeepsOrder(g: Graph, now: nat, m: Marks, c: nat, m': Marks, i: nat)
    requires Finishes(g, now, m, c, m')
    ensures InOrder(g, m', i)
  {
    if i < |m.examined| {
      assert InOrder(g, m, i);
      var n := m.examined[i];
      forall p | p in g[n].preds && p < |g| && m.make[p] ensures m'.made[p] != UNMADE {
        assert CountersAt(g, m, c, m', p);
      }
    }
  }

  /** `Make_Update` of a node that was examined keeps the invariant. */
  lemma FinishKeeps(g: Graph, now: nat, m: Marks, c: nat, m': Marks)
    requires Finishes(g, now, m, c, m')
    ensures Inv(g, now, m')
  {
    forall n: nat ensures Closed(g, m', n) { assert Closed(g, m, n); }
    forall n: nat ensures Counted(g, m', n) { KeepsCounted(g, now, m, c, m', n); }
    forall n: nat ensures Stamped(g, m', n) { KeepsStamped(g, now, m, c, m', n); }
    forall n: nat ensures Ruled(g, now, m', n) { KeepsRuled(g, now, m, c, m', n); }
    forall n: nat ensures Waits(g, m', n) { KeepsWaits(g, now, m, c, m', n); }
    forall i: nat ensures InOrder(g, m', i) { KeepsOrder(g, now, m, c, m', i); }
    forall n: nat | n in m'.queue ensures Ready(g, m', n) { KeepsReady(g, now, m, c, m', n); }
  }
}
