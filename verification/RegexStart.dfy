/** Start positions: what the ALL-star in front and the HAT symbol add to the
    expression's own first positions, in terms of its language. */
module RegexStart {
  import opened RegexTree
  import opened RegexPositions
  import opened RegexAutomaton

  lemma {:induction false} FirstNonEmpty(t: Re, k: Ctx)
    ensures FirstLocs(t, k) != {}
  {
    match t
    case Atom(pos, leaf) => assert Loc(pos, leaf, k) in FirstLocs(t, k);
    case Star(a) => FirstNonEmpty(a, InStar(a, k));
    case Plus(a) => FirstNonEmpty(a, InPlus(a, k));
    case Quest(a) => FirstNonEmpty(a, InQuest(k));
    case Cat(a, b) => FirstNonEmpty(a, InCatLeft(b, k));
    case Or(a, b) => FirstNonEmpty(a, InOr(k));
  }

  /** Leaves of the expression and FINAL: all but the leading ALL. */
  ghost function OwnLocs(p: Re, accept: nat): set<Loc> {
    AllLocs(p, InCatRight(InCatLeft(Atom(accept, Final), Root))) + AllLocs(Atom(accept, Final), InCatRight(Root))
  }

  ghost predicate Own(rows: seq<Row>, q: set<nat>) {
    forall i :: i in q ==> 1 <= i < |rows|
  }

  lemma OwnLocsClosed(rows: seq<Row>, p: Re, x: set<Loc>, c: Symbol)
    requires Automaton(rows, p) && x <= OwnLocs(p, |rows| - 1)
    ensures x <= AllLocs(Wrap(p, |rows| - 1), Root)
    ensures StepLocs(x, c) <= OwnLocs(p, |rows| - 1)
    ensures Own(rows, Positions(x))
  {
    var accept := |rows| - 1;
    var k := InCatLeft(Atom(accept, Final), Root);
    var own := OwnLocs(p, accept);
    NumberedLocs(p, InCatRight(k), 1, accept);
    forall l' | l' in StepLocs(x, c) ensures l' in own {
      var l :| l in x && Matches(l.leaf, c) && l' in FollowLocs(l.ctx);
      if l in AllLocs(p, InCatRight(k)) {
        LocsWithin(p, InCatRight(k), own, l);
      }
      FollowWithin(l.ctx, own);
    }
  }

  lemma StartIsOwn(rows: seq<Row>, p: Re)
    requires Automaton(rows, p)
    ensures FollowLocs(Ahead(p, |rows| - 1)) <= OwnLocs(p, |rows| - 1)
    ensures Own(rows, Start(p, |rows| - 1)) && Start(p, |rows| - 1) != {}
  {
    var accept := |rows| - 1;
    var k := InCatLeft(Atom(accept, Final), Root);
    FollowWithin(Ahead(p, accept), OwnLocs(p, accept));
    OwnLocsClosed(rows, p, FollowLocs(Ahead(p, accept)), 0);
    FirstNonEmpty(p, InCatRight(k));
    var l :| l in FirstLocs(p, InCatRight(k));
    assert l.pos in Start(p, accept);
  }

  /** Steps from the start positions never reactivate the leading ALL. */
  lemma StepFromStartIsOwn(rows: seq<Row>, p: Re, c: Symbol)
    requires Automaton(rows, p)
    ensures Own(rows, Step(rows, Start(p, |rows| - 1), c))
  {
    var x := FollowLocs(Ahead(p, |rows| - 1));
    StartIsOwn(rows, p);
    OwnLocsClosed(rows, p, x, c);
    StepIsStepLocs(rows, Wrap(p, |rows| - 1), x, c);
    OwnLocsClosed(rows, p, StepLocs(x, c), c);
  }

  /** Row 0 is ALL's: it is followed by itself and by the start positions. */
  lemma RowZero(rows: seq<Row>, p: Re)
    requires Automaton(rows, p)
    ensures rows[0] == Row(All, Descending({0} + Start(p, |rows| - 1), |rows|))
  {
    var accept := |rows| - 1;
    var k := InStar(Atom(0, All), Ahead(p, accept));
    var zero := Loc(0, All, k);
    assert AllLocs(Wrap(p, accept), Root) >= AllLocs(Star(Atom(0, All)), Ahead(p, accept)) by {
      assert AllLocs(Cat(Star(Atom(0, All)), p), k.up.up) >= AllLocs(Star(Atom(0, All)), Ahead(p, accept));
    }
    assert RowOf(rows, zero);
    FollowOfZero(p, accept);
  }

  lemma FollowOfZero(p: Re, accept: nat)
    ensures Positions(FollowLocs(InStar(Atom(0, All), Ahead(p, accept)))) == {0} + Start(p, accept)
  {
    var k := InStar(Atom(0, All), Ahead(p, accept));
    var zero := Loc(0, All, k);
    var x, y := FollowLocs(k), FollowLocs(Ahead(p, accept));
    assert x == {zero} + y;
    assert zero in x;
    forall i | i in {0} + Positions(y) ensures i in Positions(x) {
      if i != 0 {
        var l :| l in y && l.pos == i;
        assert l in x;
      }
    }
  }

  lemma {:induction false} DescendingShape(s: set<nat>, n: nat)
    ensures forall i, j :: 0 <= i < j < |Descending(s, n)| ==> Descending(s, n)[i] > Descending(s, n)[j]
    ensures n > 0 && n - 1 in s ==> Descending(s, n) != [] && Descending(s, n)[0] == n - 1
    ensures Members(Descending(s, n)) == set x | x in s && x < n
  {
    if n > 0 {
      DescendingShape(s, n - 1);
      var e := Descending(s, n - 1);
      assert forall i :: 0 <= i < |e| ==> e[i] in e;
      assert n - 1 in s ==> Descending(s, n) == [n - 1] + e;
    }
  }

  lemma {:induction false} DescendingOf(s: set<nat>, s': set<nat>, n: nat)
    requires forall x :: x < n ==> (x in s <==> x in s')
    ensures Descending(s, n) == Descending(s', n)
  {
    if n > 0 { DescendingOf(s, s', n - 1); }
  }

  lemma {:induction false} DescendingEmpty(n: nat)
    ensures Descending({}, n) == []
  {
    if n > 0 { DescendingEmpty(n - 1); }
  }

  /** Position 0 comes last in a listing; dropping the last entry drops it. */
  lemma {:induction false} DropZero(s: set<nat>, n: nat)
    requires n > 0 && 0 !in s
    ensures Descending({0} + s, n) == Descending(s, n) + [0]
  {
    var head := if n - 1 in {0} + s then [n - 1] else [];
    if n == 1 {
      assert Descending({0} + s, 0) == [] && Descending(s, 0) == [];
    } else {
      DropZero(s, n - 1);
      assert head + (Descending(s, n - 1) + [0]) == (head + Descending(s, n - 1)) + [0];
    }
  }

  // ----- Running from a union.

  lemma {:induction false} RunUnion(rows: seq<Row>, p: set<nat>, q: set<nat>, w: seq<Symbol>)
    ensures Run(rows, p + q, w) == Run(rows, p, w) + Run(rows, q, w)
    decreases w
  {
    if w != [] {
      StepUnion(rows, p, q, w[0], |rows|);
      RunUnion(rows, Step(rows, p, w[0]), Step(rows, q, w[0]), w[1..]);
    }
  }

  /** Start positions at the very beginning of a text: `^` may already have been read. */
  ghost function HatStart(rows: seq<Row>, p: Re): set<nat>
    requires |rows| > 0
  {
    Start(p, |rows| - 1) + Step(rows, Start(p, |rows| - 1), HAT)
  }

  lemma HatStartLanguage(rows: seq<Row>, p: Re, w: seq<Symbol>)
    requires Automaton(rows, p) && Text(w)
    ensures Accepts(rows, HatStart(rows, p), w) <==> Lang(p, w) || Lang(p, [HAT] + w)
  {
    var s := Start(p, |rows| - 1);
    RunUnion(rows, s, Step(rows, s, HAT), w);
    StartAcceptsLanguage(rows, p, w);
    StartAcceptsLanguage(rows, p, [HAT] + w);
    assert ([HAT] + w)[0] == HAT && ([HAT] + w)[1..] == w;
  }

  /** Some suffix of `w`, behind symbols other than NUL, is a word of `p`. */
  ghost predicate Floats(p: Re, w: seq<Symbol>) {
    exists k :: 0 <= k <= |w| && NUL !in w[..k] && Lang(p, w[k..])
  }

  lemma FloatsIntro(p: Re, u: seq<Symbol>, v: seq<Symbol>)
    requires NUL !in u && Lang(p, v)
    ensures Floats(p, u + v)
  {
    assert (u + v)[..|u|] == u && (u + v)[|u|..] == v;
  }

  lemma FloatsSplit(p: Re, w: seq<Symbol>) returns (u: seq<Symbol>, v: seq<Symbol>)
    requires Floats(p, w)
    ensures w == u + v && NUL !in u && Lang(p, v)
  {
    var k :| 0 <= k <= |w| && NUL !in w[..k] && Lang(p, w[k..]);
    u, v := w[..k], w[k..];
  }

  lemma FloatsPush(p: Re, c: Symbol, v: seq<Symbol>)
    requires c != NUL && Floats(p, v)
    ensures Floats(p, [c] + v)
  {
    var x, y := FloatsSplit(p, v);
    FloatsIntro(p, [c] + x, y);
    assert ([c] + x) + y == [c] + v;
  }

  lemma FloatsPop(p: Re, w: seq<Symbol>)
    requires w != [] && Floats(p, w)
    ensures Lang(p, w) || (w[0] != NUL && Floats(p, w[1..]))
  {
    var x, y := FloatsSplit(p, w);
    if x == [] {
      assert y == w;
    } else {
      assert x[0] == w[0] && w[1..] == x[1..] + y;
      FloatsIntro(p, x[1..], y);
    }
  }

  lemma FloatsStep(p: Re, c: Symbol, v: seq<Symbol>)
    ensures Floats(p, [c] + v) <==> Lang(p, [c] + v) || (c != NUL && Floats(p, v))
  {
    var w := [c] + v;
    assert w[1..] == v;
    if Floats(p, w) { FloatsPop(p, w); }
    if Lang(p, w) { FloatsIntro(p, [], w); assert [] + w == w; }
    if c != NUL && Floats(p, v) { FloatsPush(p, c, v); }
  }

  /** With ALL-star in front, a word is accepted when some suffix of it is in the language. */
  lemma {:induction false} FloatingAccepts(rows: seq<Row>, p: Re, w: seq<Symbol>)
    requires Automaton(rows, p) && Text(w)
    ensures Accepts(rows, {0} + Start(p, |rows| - 1), w) <==> Floats(p, w)
    decreases w
  {
    var s := Start(p, |rows| - 1);
    StartAcceptsLanguage(rows, p, w);
    if w == [] {
      assert w[..0] == [] && w[0..] == w;
      assert Floats(p, w) <==> Lang(p, w);
    } else {
      var c, v := w[0], w[1..];
      assert w == [c] + v;
      FloatingAccepts(rows, p, v);
      FloatsStep(p, c, v);
      RunUnion(rows, {0}, s, w);
      StepZero(rows, p, c);
      EmptyRun(rows, v);
    }
  }

  lemma StepZero(rows: seq<Row>, p: Re, c: Symbol)
    requires Automaton(rows, p) && c < NCHARS
    ensures Step(rows, {0}, c) == if c == NUL then {} else {0} + Start(p, |rows| - 1)
  {
    RowZero(rows, p);
    StartIsOwn(rows, p);
    StepZeroOnly(rows, c, |rows|);
    DescendingShape({0} + Start(p, |rows| - 1), |rows|);
  }

  lemma {:induction false} EmptyRun(rows: seq<Row>, w: seq<Symbol>)
    ensures Run(rows, {}, w) == {}
    decreases w
  {
    if w != [] {
      StepNone(rows, {}, w[0], |rows|);
      EmptyRun(rows, w[1..]);
    }
  }
}
