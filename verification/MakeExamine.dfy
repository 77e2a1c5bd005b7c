/** The examination of the node at the head of the queue, and every way it can go on. */
module MakeExamine {
  import opened MakeGraph
  import opened MakeNodes
  import opened MakeInvariant
  import opened MakeUpdate

  /** A node that was examined but is not done is out of date and runs commands; the nodes
      of `skip` are in between. */
  ghost predicate Busy(g: Graph, m: Marks, skip: set<nat>)
    requires Sized(g, m)
  {
    forall n: nat :: n < |g| && n in m.examined && n !in m.updated && n !in skip ==> IsOODate(g, m, n) && g[n].runs
  }

  /** Dropping a node that a predecessor blocks. */
  lemma DropKeeps(g: Graph, now: nat, m: Marks)
    requires Inv(g, now, m) && m.queue != [] && Ready(g, m, m.queue[0]) && Blocked(g, m, m.queue[0])
    ensures Inv(g, now, Dequeue(m))
  {
    var m' := Dequeue(m);
    SameFields(g, now, m, m');
    forall n: nat ensures Waits(g, m', n) {
      assert Waits(g, m, n);
      if n in m.queue && n != m.queue[0] { assert n in m'.queue; }
    }
    forall i: nat ensures InOrder(g, m', i) { assert InOrder(g, m, i); }
    forall n: nat | n in m'.queue ensures Ready(g, m', n) { assert n in m.queue; assert Ready(g, m, n); }
  }

  /** Parts of the invariant that look at node fields and `updated` only. */
  lemma SameFields(g: Graph, now: nat, m: Marks, m': Marks)
    requires Inv(g, now, m)
    requires m' == m.(queue := m'.queue, numNodes := m'.numNodes, examined := m'.examined)
    ensures Sized(g, m')
    ensures forall n: nat {:trigger Closed(g, m', n)} :: Closed(g, m', n)
    ensures forall n: nat {:trigger Counted(g, m', n)} :: Counted(g, m', n)
    ensures forall n: nat {:trigger Stamped(g, m', n)} :: Stamped(g, m', n)
    ensures forall n: nat {:trigger Ruled(g, now, m', n)} :: Ruled(g, now, m', n)
  {
    forall n: nat ensures Closed(g, m', n) { assert Closed(g, m, n); }
    forall n: nat ensures Counted(g, m', n) { assert Counted(g, m, n); }
    forall n: nat ensures Stamped(g, m', n) {
      assert Stamped(g, m, n);
      if n < |g| && m.make[n] {
        SameYoungest(g, m, m', g[n].children);
        forall x: nat ensures MadeChild(g, m', x) <==> MadeChild(g, m, x) { }
      }
    }
    forall n: nat ensures Ruled(g, now, m', n) { assert Ruled(g, now, m, n); }
  }

  lemma {:induction false} SameYoungest(g: Graph, m: Marks, m': Marks, cs: seq<nat>)
    requires Sized(g, m) && Sized(g, m') && Refs(g, cs)
    requires m'.updated == m.updated && m'.made == m.made && m'.mtime == m.mtime
    ensures Youngest(g, m', cs) == Youngest(g, m, cs)
  {
    if cs != [] { SameYoungest(g, m, m', cs[..|cs| - 1]); }
  }

  /** The head of the queue passes when nothing blocks it: it was not examined before, its
      children are done and so are its marked predecessors. */
  lemma PassKeeps(g: Graph, now: nat, m: Marks, n: nat)
    requires Inv(g, now, m) && m.queue != [] && n == m.queue[0] && n < |g| && !Blocked(g, m, n)
    ensures Inv(g, now, Pass(g, Dequeue(m), n))
    ensures n !in m.examined && n !in m.updated
    ensures Busy(g, m, {}) ==> Busy(g, Pass(g, Dequeue(m), n), {n})
  {
    var m' := Pass(g, Dequeue(m), n);
    assert Ready(g, m, n) && Ruled(g, now, m, n);
    assert m'.mtime == m.mtime;
    SameFields(g, now, m, m');
    forall x: nat ensures Waits(g, m', x) {
      assert Waits(g, m, x);
      if x in m.queue && x != n { assert x in m'.queue; }
      if x < |g| && Blocked(g, m, x) { var p :| p in g[x].preds && Blocks(m, p); assert Blocks(m', p); }
    }
    forall x: nat | x in m'.queue ensures Ready(g, m', x) { assert x in m.queue; assert Ready(g, m, x); }
    forall i: nat ensures InOrder(g, m', i) { PassInOrder(g, now, m, n, i); }
  }

  lemma PassInOrder(g: Graph, now: nat, m: Marks, n: nat, i: nat)
    requires Inv(g, now, m) && m.queue != [] && n == m.queue[0] && n < |g| && !Blocked(g, m, n)
    requires Ready(g, m, n)
    ensures InOrder(g, Pass(g, Dequeue(m), n), i)
  {
    var m' := Pass(g, Dequeue(m), n);
    if i < |m.examined| {
      assert InOrder(g, m, i);
      assert m'.examined[..i] == m.examined[..i];
    } else if i == |m.examined| {
      assert m'.examined[..i] == m.examined;
      assert Counted(g, m, n);
      LeftAll(g[n].children, m.updated);
      forall p | p in g[n].preds && p < |g| && m.make[p] ensures p in m.updated && m.made[p] != UNMADE {
        assert !Blocks(m, p);
        assert Ruled(g, now, m, p);
      }
    }
  }

  /** A node that is up to date is done at once. */
  lemma SettleKeeps(g: Graph, now: nat, m: Marks, n: nat)
    requires Linked(g) && Inv(g, now, m) && n in m.examined && n !in m.updated && n < |g| && !IsOODate(g, m, n)
    ensures Inv(g, now, Settle(g, now, m, n))
    ensures Settle(g, now, m, n).updated == m.updated + {n} && Settle(g, now, m, n).examined == m.examined
    ensures Busy(g, m, {n}) ==> Busy(g, Settle(g, now, m, n), {})
  {
    QueueApart(g, now, m, n);
    SettleIsDone(g, now, m, n);
    ExaminedMarked(g, now, m, n);
    assert Ruled(g, now, m, n);
    FinishKeeps(g, now, m, n, Settle(g, now, m, n));
    if Busy(g, m, {n}) { FinishKeepsBusy(g, now, m, n, Settle(g, now, m, n)); }
  }

  /** A node that is out of date is done when its commands are: MADE if it ran any. */
  lemma UpdateKeeps(g: Graph, now: nat, m: Marks, n: nat, v: Made)
    requires Linked(g) && Inv(g, now, m) && n in m.examined && n !in m.updated && n < |g| && IsOODate(g, m, n)
    requires v == if g[n].runs then MADE else UNMADE
    ensures var m' := Update(g, now, m.(made := m.made[n := v]), n);
            Inv(g, now, m') && m'.updated == m.updated + {n} && m'.examined == m.examined &&
            (Busy(g, m, {n}) ==> Busy(g, m', {}))
  {
    QueueApart(g, now, m, n);
    var m1 := m.(made := m.made[n := v]);
    UpdateIsDone(g, now, m, n, v, m1);
    FinishKeeps(g, now, m, n, Update(g, now, m1, n));
    if Busy(g, m, {n}) { FinishKeepsBusy(g, now, m, n, Update(g, now, m1, n)); }
  }

  lemma QueueApart(g: Graph, now: nat, m: Marks, n: nat)
    requires Linked(g) && Inv(g, now, m) && n < |g| && n !in m.updated
    ensures forall p :: p in m.queue ==> p < |g| && p !in g[n].parents
  {
    forall p | p in m.queue ensures p < |g| && p !in g[n].parents { NotTold(g, now, m, n, p); }
  }

  lemma FinishKeepsBusy(g: Graph, now: nat, m: Marks, c: nat, m': Marks)
    requires Finishes(g, now, m, c, m') && Busy(g, m, {c})
    ensures Busy(g, m', {})
  {
    forall n: nat | n < |g| && n in m'.examined && n !in m'.updated ensures IsOODate(g, m', n) && g[n].runs {
      NotTold(g, now, m, c, n);
      ExaminedMarked(g, now, m, n);
      assert CountersAt(g, m, c, m', n);
    }
  }
}
