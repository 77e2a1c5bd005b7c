/** Rows of the position automaton, its subset step, and the theorem that running the
    subset step over a word decides the language of the regular expression. */
module RegexAutomaton {
  import opened RegexTree
  import opened RegexPositions

  /** What `rrow` holds for one leaf: the leaf and its follow positions, largest first. */
  datatype Row = Row(leaf: Leaf, follow: seq<nat>)

  /** The members of `s` below `n`, largest first. */
  function Descending(s: set<nat>, n: nat): (d: seq<nat>)
    ensures forall x :: x in d <==> x in s && x < n
  {
    if n == 0 then [] else (if n - 1 in s then [n - 1] else []) + Descending(s, n - 1)
  }

  function Members(p: seq<nat>): set<nat> {
    set x | x in p
  }

  /** Positions that may be active after reading `c` with the positions `p` active:
      the follow positions of every active leaf that consumes it. */
  function Step(rows: seq<Row>, p: set<nat>, c: Symbol): set<nat> {
    StepBelow(rows, p, c, |rows|)
  }

  function StepBelow(rows: seq<Row>, p: set<nat>, c: Symbol, n: nat): set<nat>
    requires n <= |rows|
  {
    if n == 0 then {}
    else StepBelow(rows, p, c, n - 1) +
         (if n - 1 in p && Matches(rows[n - 1].leaf, c) then Members(rows[n - 1].follow) else {})
  }

  lemma {:induction false} StepHas(rows: seq<Row>, p: set<nat>, c: Symbol, n: nat, x: nat)
    requires n <= |rows|
    ensures x in StepBelow(rows, p, c, n)
            <==> exists i :: 0 <= i < n && i in p && Matches(rows[i].leaf, c) && x in rows[i].follow
  {
    if n > 0 { StepHas(rows, p, c, n - 1, x); }
  }

  lemma {:induction false} StepUnion(rows: seq<Row>, p: set<nat>, q: set<nat>, c: Symbol, n: nat)
    requires n <= |rows|
    ensures StepBelow(rows, p + q, c, n) == StepBelow(rows, p, c, n) + StepBelow(rows, q, c, n)
  {
    if n > 0 { StepUnion(rows, p, q, c, n - 1); }
  }

  lemma {:induction false} StepNone(rows: seq<Row>, p: set<nat>, c: Symbol, n: nat)
    requires n <= |rows| && forall i :: 0 <= i < n ==> i !in p
    ensures StepBelow(rows, p, c, n) == {}
  {
    if n > 0 { StepNone(rows, p, c, n - 1); }
  }

  lemma {:induction false} StepZeroOnly(rows: seq<Row>, c: Symbol, n: nat)
    requires 0 < n <= |rows|
    ensures StepBelow(rows, {0}, c, n) == if Matches(rows[0].leaf, c) then Members(rows[0].follow) else {}
  {
    if n > 1 { StepZeroOnly(rows, c, n - 1); } else { assert StepBelow(rows, {0}, c, 0) == {}; }
  }

  function Run(rows: seq<Row>, p: set<nat>, w: seq<Symbol>): set<nat>
    decreases w
  {
    if w == [] then p else Run(rows, Step(rows, p, w[0]), w[1..])
  }

  /** The last row is FINAL's, so acceptance is membership of the last position. */
  predicate Accepts(rows: seq<Row>, p: set<nat>, w: seq<Symbol>) {
    |rows| - 1 in Run(rows, p, w)
  }

  ghost function Positions(x: set<Loc>): set<nat> {
    set l | l in x :: l.pos
  }

  // ----- Numbering the leaves, left to right.

  function Number(t: Re, n: nat): (r: (Re, nat))
    ensures r.1 > n
  {
    match t
    case Atom(_, leaf) => (Atom(n, leaf), n + 1)
    case Star(a) => var (a', m) := Number(a, n); (Star(a'), m)
    case Plus(a) => var (a', m) := Number(a, n); (Plus(a'), m)
    case Quest(a) => var (a', m) := Number(a, n); (Quest(a'), m)
    case Cat(a, b) => var (a', m) := Number(a, n); var (b', o) := Number(b, m); (Cat(a', b'), o)
    case Or(a, b) => var (a', m) := Number(a, n); var (b', o) := Number(b, m); (Or(a', b'), o)
  }

  /** Positions of the leaves of `t` are exactly n, n + 1, ..., m - 1, one each. */
  ghost predicate Numbered(t: Re, n: nat, m: nat) {
    match t
    case Atom(pos, _) => pos == n && m == n + 1
    case Star(a) => Numbered(a, n, m)
    case Plus(a) => Numbered(a, n, m)
    case Quest(a) => Numbered(a, n, m)
    case Cat(a, b) => exists j :: Numbered(a, n, j) && Numbered(b, j, m)
    case Or(a, b) => exists j :: Numbered(a, n, j) && Numbered(b, j, m)
  }

  lemma {:induction false} NumberNumbers(t: Re, n: nat)
    ensures Numbered(Number(t, n).0, n, Number(t, n).1)
  {
    match t
    case Atom(_, _) =>
    case Star(a) => NumberNumbers(a, n);
    case Plus(a) => NumberNumbers(a, n);
    case Quest(a) => NumberNumbers(a, n);
    case Cat(a, b) => NumberNumbers(a, n); NumberNumbers(b, Number(a, n).1);
    case Or(a, b) => NumberNumbers(a, n); NumberNumbers(b, Number(a, n).1);
  }

  /** Numbering does not change the language. */
  lemma {:induction false} NumberKeepsLang(t: Re, n: nat, w: seq<Symbol>)
    ensures Lang(Number(t, n).0, w) <==> Lang(t, w)
    decreases t, |w|, 0
  {
    match t
    case Atom(_, _) =>
    case Star(a) => NumberKeepsStar(a, n, w);
    case Plus(a) =>
      forall k | 0 <= k <= |w|
        ensures Lang(Number(a, n).0, w[..k]) <==> Lang(a, w[..k])
        ensures StarLang(Number(a, n).0, w[k..]) <==> StarLang(a, w[k..])
      {
        NumberKeepsLang(a, n, w[..k]);
        NumberKeepsStar(a, n, w[k..]);
      }
    case Quest(a) => NumberKeepsLang(a, n, w);
    case Cat(a, b) =>
      forall k | 0 <= k <= |w|
        ensures Lang(Number(a, n).0, w[..k]) <==> Lang(a, w[..k])
        ensures Lang(Number(b, Number(a, n).1).0, w[k..]) <==> Lang(b, w[k..])
      {
        NumberKeepsLang(a, n, w[..k]);
        NumberKeepsLang(b, Number(a, n).1, w[k..]);
      }
    case Or(a, b) =>
      NumberKeepsLang(a, n, w);
      NumberKeepsLang(b, Number(a, n).1, w);
  }

  lemma {:induction false} NumberKeepsStar(a: Re, n: nat, w: seq<Symbol>)
    ensures StarLang(Number(a, n).0, w) <==> StarLang(a, w)
    decreases a, |w|, 1
  {
    forall k | 0 < k <= |w|
      ensures Lang(Number(a, n).0, w[..k]) <==> Lang(a, w[..k])
      ensures StarLang(Number(a, n).0, w[k..]) <==> StarLang(a, w[k..])
    {
      NumberKeepsLang(a, n, w[..k]);
      NumberKeepsStar(a, n, w[k..]);
    }
  }

  /** Leaves of a numbered tree lie in its range, and no two share a position. */
  lemma {:induction false} NumberedLocs(t: Re, k: Ctx, n: nat, m: nat)
    requires Numbered(t, n, m)
    ensures n < m
    ensures forall l :: l in AllLocs(t, k) ==> n <= l.pos < m
    ensures forall l, l' :: l in AllLocs(t, k) && l' in AllLocs(t, k) && l.pos == l'.pos ==> l == l'
  {
    match t
    case Atom(_, _) =>
    case Star(a) => NumberedLocs(a, InStar(a, k), n, m);
    case Plus(a) => NumberedLocs(a, InPlus(a, k), n, m);
    case Quest(a) => NumberedLocs(a, InQuest(k), n, m);
    case Cat(a, b) =>
      var j :| Numbered(a, n, j) && Numbered(b, j, m);
      NumberedLocs(a, InCatLeft(b, k), n, j);
      NumberedLocs(b, InCatRight(k), j, m);
    case Or(a, b) =>
      var j :| Numbered(a, n, j) && Numbered(b, j, m);
      NumberedLocs(a, InOr(k), n, j);
      NumberedLocs(b, InOr(k), j, m);
  }

  // ----- First and follow stay inside the tree.

  lemma {:induction false} FirstWithinAll(t: Re, k: Ctx)
    ensures FirstLocs(t, k) <= AllLocs(t, k)
  {
    match t
    case Atom(_, _) =>
    case Star(a) => FirstWithinAll(a, InStar(a, k));
    case Plus(a) => FirstWithinAll(a, InPlus(a, k));
    case Quest(a) => FirstWithinAll(a, InQuest(k));
    case Cat(a, b) => FirstWithinAll(a, InCatLeft(b, k)); FirstWithinAll(b, InCatRight(k));
    case Or(a, b) => FirstWithinAll(a, InOr(k)); FirstWithinAll(b, InOr(k));
  }

  /** Every leaf a context mentions belongs to `all`. */
  ghost predicate Within(k: Ctx, all: set<Loc>)
    decreases k
  {
    match k
    case Root => true
    case InStar(a, up) => AllLocs(a, k) <= all && Within(up, all)
    case InPlus(a, up) => AllLocs(a, k) <= all && Within(up, all)
    case InQuest(up) => Within(up, all)
    case InOr(up) => Within(up, all)
    case InCatLeft(b, up) => AllLocs(b, InCatRight(up)) <= all && Within(up, all)
    case InCatRight(up) => Within(up, all)
  }

  lemma {:induction false} LocsWithin(t: Re, k: Ctx, all: set<Loc>, l: Loc)
    requires AllLocs(t, k) <= all && Within(k, all) && l in AllLocs(t, k)
    ensures Within(l.ctx, all)
    decreases t
  {
    match t
    case Atom(_, _) =>
    case Star(a) => LocsWithin(a, InStar(a, k), all, l);
    case Plus(a) => LocsWithin(a, InPlus(a, k), all, l);
    case Quest(a) => LocsWithin(a, InQuest(k), all, l);
    case Cat(a, b) =>
      if l in AllLocs(a, InCatLeft(b, k)) {
        LocsWithin(a, InCatLeft(b, k), all, l);
      } else {
        LocsWithin(b, InCatRight(k), all, l);
      }
    case Or(a, b) =>
      if l in AllLocs(a, InOr(k)) { LocsWithin(a, InOr(k), all, l); } else { LocsWithin(b, InOr(k), all, l); }
  }

  lemma {:induction false} FollowWithin(k: Ctx, all: set<Loc>)
    requires Within(k, all)
    ensures FollowLocs(k) <= all
    decreases k
  {
    match k
    case Root =>
    case InStar(a, up) => FirstWithinAll(a, k); FollowWithin(up, all);
    case InPlus(a, up) => FirstWithinAll(a, k); FollowWithin(up, all);
    case InQuest(up) => FollowWithin(up, all);
    case InOr(up) => FollowWithin(up, all);
    case InCatLeft(b, up) => FirstWithinAll(b, InCatRight(up)); FollowWithin(up, all);
    case InCatRight(up) => FollowWithin(up, all);
  }

  // ----- The automaton of a tree.

  /** Row l.pos of the automaton holds leaf `l` and the positions that may follow it. */
  ghost predicate RowOf(rows: seq<Row>, l: Loc) {
    l.pos < |rows| && rows[l.pos] == Row(l.leaf, Descending(Positions(FollowLocs(l.ctx)), |rows|))
  }

  ghost predicate Builds(rows: seq<Row>, root: Re) {
    forall l :: l in AllLocs(root, Root) ==> RowOf(rows, l)
  }

  /** No FINAL leaf: what the parser of regular expressions produces. */
  predicate Plain(t: Re) {
    match t
    case Atom(_, leaf) => leaf != Final
    case Star(a) => Plain(a)
    case Plus(a) => Plain(a)
    case Quest(a) => Plain(a)
    case Cat(a, b) => Plain(a) && Plain(b)
    case Or(a, b) => Plain(a) && Plain(b)
  }

  lemma {:induction false} PlainLocs(t: Re, k: Ctx)
    requires Plain(t)
    ensures forall l :: l in AllLocs(t, k) ==> l.leaf != Final
  {
    match t
    case Atom(_, _) =>
    case Star(a) => PlainLocs(a, InStar(a, k));
    case Plus(a) => PlainLocs(a, InPlus(a, k));
    case Quest(a) => PlainLocs(a, InQuest(k));
    case Cat(a, b) => PlainLocs(a, InCatLeft(b, k)); PlainLocs(b, InCatRight(k));
    case Or(a, b) => PlainLocs(a, InOr(k)); PlainLocs(b, InOr(k));
  }

  /** ALL-star in front and FINAL behind, as `mkdfa` wraps every expression. */
  function Wrap(p: Re, accept: nat): Re {
    Cat(Cat(Star(Atom(0, All)), p), Atom(accept, Final))
  }

  /** The context of the expression inside its wrapping, as a right sibling still to come. */
  function Ahead(p: Re, accept: nat): Ctx {
    InCatLeft(p, InCatLeft(Atom(accept, Final), Root))
  }

  /** Positions active at the start of the expression itself. */
  ghost function Start(p: Re, accept: nat): set<nat> {
    Positions(FollowLocs(Ahead(p, accept)))
  }

  /** Rows list only positions of the automaton. */
  predicate RowsOk(rows: seq<Row>) {
    |rows| > 0 && forall i :: 0 <= i < |rows| ==> forall x :: x in rows[i].follow ==> x < |rows|
  }

  ghost predicate Automaton(rows: seq<Row>, p: Re) {
    && |rows| > 2
    && Plain(p)
    && Numbered(p, 1, |rows| - 1)
    && Builds(rows, Wrap(p, |rows| - 1))
    && RowsOk(rows)
  }

  /** A text has no END symbol. */
  predicate Text(w: seq<Symbol>) {
    forall i :: 0 <= i < |w| ==> w[i] < NCHARS
  }

  // ----- Running the subset step decides continuations.

  /** The leaves that follow the leaves of `x` that consume `c`. */
  ghost function StepLocs(x: set<Loc>, c: Symbol): set<Loc> {
    set l, l' | l in x && Matches(l.leaf, c) && l' in FollowLocs(l.ctx) :: l'
  }

  /** Some leaf of `x` continues with `w`. */
  ghost predicate SomeContinues(x: set<Loc>, w: seq<Symbol>) {
    exists l :: l in x && Continues(l, w)
  }

  lemma RowFollows(rows: seq<Row>, root: Re, l: Loc)
    requires Builds(rows, root) && l in AllLocs(root, Root)
    ensures FollowLocs(l.ctx) <= AllLocs(root, Root)
    ensures l.pos < |rows| && rows[l.pos].leaf == l.leaf
    ensures forall q :: q in rows[l.pos].follow <==> q in Positions(FollowLocs(l.ctx))
  {
    LocsWithin(root, Root, AllLocs(root, Root), l);
    FollowWithin(l.ctx, AllLocs(root, Root));
    assert RowOf(rows, l);
    forall l' | l' in FollowLocs(l.ctx) ensures l'.pos < |rows| { assert RowOf(rows, l'); }
  }

  lemma StepIsStepLocs(rows: seq<Row>, root: Re, x: set<Loc>, c: Symbol)
    requires Builds(rows, root) && x <= AllLocs(root, Root)
    ensures StepLocs(x, c) <= AllLocs(root, Root)
    ensures Step(rows, Positions(x), c) == Positions(StepLocs(x, c))
  {
    forall l' | l' in StepLocs(x, c)
      ensures l' in AllLocs(root, Root) && l'.pos in Step(rows, Positions(x), c)
    {
      var l :| l in x && Matches(l.leaf, c) && l' in FollowLocs(l.ctx);
      RowFollows(rows, root, l);
      assert l.pos in Positions(x) && l'.pos in Positions(FollowLocs(l.ctx));
      StepHas(rows, Positions(x), c, |rows|, l'.pos);
    }
    forall q | q in Step(rows, Positions(x), c) ensures q in Positions(StepLocs(x, c)) {
      StepHas(rows, Positions(x), c, |rows|, q);
      var i :| 0 <= i < |rows| && i in Positions(x) && Matches(rows[i].leaf, c) && q in rows[i].follow;
      var l :| l in x && l.pos == i;
      RowFollows(rows, root, l);
      var l' :| l' in FollowLocs(l.ctx) && l'.pos == q;
      assert l' in StepLocs(x, c);
    }
  }

  /** One symbol: some leaf of `x` continues with c w exactly when some next leaf continues with w. */
  lemma StepContinues(x: set<Loc>, c: Symbol, w: seq<Symbol>)
    requires w != []
    ensures SomeContinues(x, [c] + w) <==> SomeContinues(StepLocs(x, c), w)
  {
    var cw := [c] + w;
    assert cw[1..] == w;
    if SomeContinues(x, cw) {
      var l :| l in x && Continues(l, cw);
      var l' := FollowComplete(l.ctx, w);
      assert l' in StepLocs(x, c);
    }
    if SomeContinues(StepLocs(x, c), w) {
      var l' :| l' in StepLocs(x, c) && Continues(l', w);
      var l :| l in x && Matches(l.leaf, c) && l' in FollowLocs(l.ctx);
      FollowSound(l.ctx, w, l');
      assert Continues(l, cw);
    }
  }

  /** Acceptance after `w` is continuation with `w` and the end marker. */
  lemma {:induction false} AcceptsIsContinues(rows: seq<Row>, p: Re, x: set<Loc>, w: seq<Symbol>)
    requires Automaton(rows, p) && x <= AllLocs(Wrap(p, |rows| - 1), Root) && Text(w)
    ensures Accepts(rows, Positions(x), w) <==> SomeContinues(x, w + [END])
    decreases w
  {
    var root := Wrap(p, |rows| - 1);
    if w == [] {
      FinalIsLast(rows, p);
      var final := Loc(|rows| - 1, Final, InCatRight(Root));
      assert (w + [END])[0] == END && (w + [END])[1..] == [];
      assert Continues(final, w + [END]);
      if Accepts(rows, Positions(x), w) {
        var l :| l in x && l.pos == |rows| - 1;
      }
    } else {
      StepIsStepLocs(rows, root, x, w[0]);
      AcceptsIsContinues(rows, p, StepLocs(x, w[0]), w[1..]);
      StepContinues(x, w[0], w[1..] + [END]);
      assert [w[0]] + (w[1..] + [END]) == w + [END];
    }
  }

  /** The only FINAL leaf is the last one. */
  lemma FinalIsLast(rows: seq<Row>, p: Re)
    requires Automaton(rows, p)
    ensures forall l :: l in AllLocs(Wrap(p, |rows| - 1), Root) ==>
              (l.leaf == Final <==> l == Loc(|rows| - 1, Final, InCatRight(Root))) &&
              (l.leaf == Final <==> l.pos == |rows| - 1)
    ensures Loc(|rows| - 1, Final, InCatRight(Root)) in AllLocs(Wrap(p, |rows| - 1), Root)
  {
    var accept := |rows| - 1;
    var k := InCatLeft(Atom(accept, Final), Root);
    PlainLocs(p, InCatRight(k));
    NumberedLocs(p, InCatRight(k), 1, accept);
    assert AllLocs(Wrap(p, accept), Root) ==
      AllLocs(Star(Atom(0, All)), InCatLeft(p, k)) + AllLocs(p, InCatRight(k)) +
        AllLocs(Atom(accept, Final), InCatRight(Root));
  }

  /** MAIN: the automaton started at the expression's own first positions accepts
      exactly the words of the expression. */
  lemma StartAcceptsLanguage(rows: seq<Row>, p: Re, w: seq<Symbol>)
    requires Automaton(rows, p) && Text(w)
    ensures Accepts(rows, Start(p, |rows| - 1), w) <==> Lang(p, w)
  {
    var accept := |rows| - 1;
    var k := Ahead(p, accept);
    var root := Wrap(p, accept);
    var all := AllLocs(root, Root);
    var we := w + [END];
    AheadWithin(p, accept);
    FollowWithin(k, all);
    AcceptsIsContinues(rows, p, FollowLocs(k), w);
    if Lang(p, w) {
      assert we[..|w|] == w && we[|w|..] == [END];
      FinalRest(accept, [END]);
      assert Rest(k, we);
      var l := FollowComplete(k, we);
    }
    if SomeContinues(FollowLocs(k), we) {
      var l :| l in FollowLocs(k) && Continues(l, we);
      FollowSound(k, we, l);
      var i :| 0 <= i <= |we| && Lang(p, we[..i]) && Rest(k.up, we[i..]);
      FinalRest(accept, we[i..]);
      assert we[i..] == [END];
      assert we[..i] == w;
    }
  }

  lemma AheadWithin(p: Re, accept: nat)
    ensures Within(Ahead(p, accept), AllLocs(Wrap(p, accept), Root))
  {
    var k := InCatLeft(Atom(accept, Final), Root);
    assert AllLocs(Wrap(p, accept), Root) ==
      AllLocs(Star(Atom(0, All)), InCatLeft(p, k)) + AllLocs(p, InCatRight(k)) +
        AllLocs(Atom(accept, Final), InCatRight(Root));
  }

  lemma FinalRest(accept: nat, w: seq<Symbol>)
    ensures Rest(InCatLeft(Atom(accept, Final), Root), w) <==> w == [END]
  {
    if w == [END] {
      assert w[..1] == w && w[1..] == [];
    }
  }
}
