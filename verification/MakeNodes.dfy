/** The node fields of make.c as a value, and `Make_Update` and the examination of a node
    as functions on it. */
module MakeNodes {
  import opened MakeGraph

  /** Per node: `make` (to be made), `made`, `unmade` (children still to come), `childMade`,
      `cmtime` (youngest child), `mtime`; the queue `toBeMade`; `numNodes`. `examined` (in
      order) and `updated` are history: the nodes that passed examination, and those passed
      through `Make_Update`. */
  datatype Marks = Marks(make: seq<bool>, made: seq<Made>, unmade: seq<int>, childMade: seq<bool>,
                         cmtime: seq<nat>, mtime: seq<nat>, queue: seq<nat>, numNodes: int,
                         examined: seq<nat>, updated: set<nat>)

  predicate Sized(g: Graph, m: Marks) {
    |m.make| == |m.made| == |m.unmade| == |m.childMade| == |m.cmtime| == |m.mtime| == |g|
  }

  // ----- Make_Update

  /** What child `c` tells parent `p`. */
  function TellParent(g: Graph, m: Marks, c: nat, p: nat): (m': Marks)
    requires Sized(g, m) && c < |g| && p < |g|
    ensures Sized(g, m') && m'.make == m.make
  {
    if !m.make[p] then m
    else m.(unmade := m.unmade[p := m.unmade[p] - 1],
            childMade := if g[c].exec then m.childMade else m.childMade[p := m.childMade[p] || m.made[c] == MADE],
            cmtime := if g[c].exec then m.cmtime else m.cmtime[p := Max(m.cmtime[p], m.mtime[c])],
            queue := if m.unmade[p] - 1 == 0 then m.queue + [p] else m.queue)
  }

  function TellParents(g: Graph, m: Marks, c: nat, k: nat): (m': Marks)
    requires Sized(g, m) && c < |g| && Refs(g, g[c].parents) && k <= |g[c].parents|
    ensures Sized(g, m') && m'.make == m.make
  {
    if k == 0 then m
    else assert g[c].parents[k - 1] in g[c].parents;
         TellParent(g, TellParents(g, m, c, k - 1), c, g[c].parents[k - 1])
  }

  /** A successor that held itself back is queued again. */
  function WakeSuccessor(g: Graph, m: Marks, s: nat): (m': Marks)
    requires Sized(g, m) && s < |g|
    ensures Sized(g, m') && m'.make == m.make
  {
    if m.make[s] && m.unmade[s] == 0 && m.made[s] == UNMADE && s !in m.queue
    then m.(queue := m.queue + [s]) else m
  }

  function WakeSuccessors(g: Graph, m: Marks, c: nat, k: nat): (m': Marks)
    requires Sized(g, m) && c < |g| && Refs(g, g[c].succs) && k <= |g[c].succs|
    ensures Sized(g, m') && m'.make == m.make
  {
    if k == 0 then m
    else assert g[c].succs[k - 1] in g[c].succs;
         WakeSuccessor(g, WakeSuccessors(g, m, c, k - 1), g[c].succs[k - 1])
  }

  /** The file of a node that is not up to date is looked at again. */
  function Restat(g: Graph, now: nat, m: Marks, c: nat): (m': Marks)
    requires Sized(g, m) && c < |g|
    ensures Sized(g, m') && m'.make == m.make
  {
    if m.made[c] == UPTODATE then m
    else m.(mtime := m.mtime[c := if g[c].after == 0 then now else g[c].after])
  }

  /** `Make_Update`. */
  function Update(g: Graph, now: nat, m: Marks, c: nat): (m': Marks)
    requires Linked(g) && Sized(g, m) && c < |g|
    ensures Sized(g, m') && m'.make == m.make
  {
    assert LinkedAt(g, c);
    var m1 := TellParents(g, Restat(g, now, m, c), c, |g[c].parents|);
    var m2 := WakeSuccessors(g, m1, c, |g[c].succs|);
    m2.(updated := m2.updated + {c})
  }

  // ----- The examination of a node.

  /** A predecessor of `n` that is to be made and is still UNMADE. */
  predicate Blocks(m: Marks, p: nat) {
    p < |m.make| && p < |m.made| && m.make[p] && m.made[p] == UNMADE
  }

  predicate Blocked(g: Graph, m: Marks, n: nat)
    requires n < |g|
  {
    exists p :: p in g[n].preds && Blocks(m, p)
  }

  predicate IsOODate(g: Graph, m: Marks, n: nat)
    requires Sized(g, m) && n < |g|
  {
    OODate(g[n], m.childMade[n], m.cmtime[n])
  }

  /** A node that is up to date tells its parents its modification time at once. */
  function StampParents(g: Graph, m: Marks, n: nat, k: nat): (m': Marks)
    requires Sized(g, m) && n < |g| && Refs(g, g[n].parents) && k <= |g[n].parents|
    ensures Sized(g, m') && m'.make == m.make
  {
    if k == 0 then m
    else assert g[n].parents[k - 1] in g[n].parents;
         var m1 := StampParents(g, m, n, k - 1);
         var p := g[n].parents[k - 1];
         m1.(cmtime := m1.cmtime[p := Max(m1.cmtime[p], m1.mtime[n])])
  }

  function Dequeue(m: Marks): Marks
    requires m.queue != []
  {
    m.(queue := m.queue[1..])
  }

  /** The node passes: it counts as processed, and its file is looked at. */
  function Pass(g: Graph, m: Marks, n: nat): (m': Marks)
    requires Sized(g, m) && n < |g|
    ensures Sized(g, m') && m'.make == m.make
  {
    m.(numNodes := m.numNodes - 1, examined := m.examined + [n],
       mtime := if g[n].join || g[n].exec then m.mtime else m.mtime[n := g[n].stat])
  }

  /** The node is up to date. */
  function Settle(g: Graph, now: nat, m: Marks, n: nat): (m': Marks)
    requires Linked(g) && Sized(g, m) && n < |g|
    ensures Sized(g, m') && m'.make == m.make
  {
    assert LinkedAt(g, n);
    var m1 := StampParents(g, m, n, |g[n].parents|);
    Update(g, now, m1.(made := m1.made[n := UPTODATE]), n)
  }
}
