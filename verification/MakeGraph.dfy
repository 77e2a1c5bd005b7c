/** The dependency graph of pmake and the rule that decides what becomes of a node. */
module MakeGraph {

  /** What `made` records; BEINGMADE, ERROR and ABORTED are not used by the parallel scheduler. */
  datatype Made = UNMADE | MADE | UPTODATE

  /** A node: its links, its attributes, and its file: `stat` is the modification time found
      when the node is examined, `after` the one found when its commands are done (0 if there
      is no file). `runs` says that its commands print at least one line for the shell. */
  datatype Node = Node(children: seq<nat>, parents: seq<nat>, preds: seq<nat>, succs: seq<nat>,
                       join: bool, exec: bool, forced: bool, doubleDep: bool, runs: bool,
                       stat: nat, after: nat)

  type Graph = seq<Node>

  predicate Distinct(s: seq<nat>) {
    forall i, j :: 0 <= i < j < |s| ==> s[i] != s[j]
  }

  /** `x` is one of the first `k` entries. */
  predicate Among(s: seq<nat>, k: nat, x: nat)
    requires k <= |s|
  {
    k > 0 && (s[k - 1] == x || Among(s, k - 1, x))
  }

  lemma {:induction false} AmongIs(s: seq<nat>, k: nat, x: nat)
    requires k <= |s|
    ensures Among(s, k, x) <==> exists i :: 0 <= i < k && s[i] == x
  {
    if k > 0 { AmongIs(s, k - 1, x); }
  }

  lemma AmongAll(s: seq<nat>, x: nat)
    ensures Among(s, |s|, x) <==> x in s
  {
    AmongIs(s, |s|, x);
  }

  lemma AmongNew(s: seq<nat>, k: nat)
    requires Distinct(s) && k < |s|
    ensures !Among(s, k, s[k])
  {
    AmongIs(s, k, s[k]);
  }

  predicate Refs(g: Graph, s: seq<nat>) {
    forall i :: 0 <= i < |s| ==> s[i] < |g|
  }

  /** Links exist in both directions, and no child is listed twice. */
  predicate LinkedAt(g: Graph, n: nat)
    requires n < |g|
  {
    && Refs(g, g[n].children) && Refs(g, g[n].parents) && Refs(g, g[n].preds) && Refs(g, g[n].succs)
    && Distinct(g[n].children) && Distinct(g[n].parents)
  }

  predicate Linked(g: Graph) {
    && (forall n: nat :: n < |g| ==> LinkedAt(g, n))
    && (forall p: nat, c: nat :: p < |g| && c < |g| ==> (c in g[p].children <==> p in g[c].parents))
    && (forall p: nat, s: nat :: p < |g| && s < |g| ==> (p in g[s].preds <==> s in g[p].succs))
  }

  /** Is a node out of date, given its youngest child and whether a child was made? */
  predicate OODate(x: Node, childMade: bool, cmtime: nat) {
    if x.join then childMade
    else if x.forced || x.exec then true
    else x.stat < cmtime || (cmtime == 0 && (x.stat == 0 || x.doubleDep))
  }

  /** What a node ends up as: `made` and its modification time. A node that is out of date
      but has no commands to run stays UNMADE. */
  function Rule(x: Node, now: nat, childMade: bool, cmtime: nat): (Made, nat) {
    if !OODate(x, childMade, cmtime) then (UPTODATE, x.stat)
    else (if x.runs then MADE else UNMADE, if x.after == 0 then now else x.after)
  }

  function Max(a: nat, b: nat): nat {
    if a >= b then a else b
  }
}
