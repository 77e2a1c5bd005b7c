/** The expressions a...a|cb and their automata: what the counterexamples for the flush of the
    table and for the start state are about. */
module RegexFamily {
  import opened RegexTree
  import opened RegexPositions
  import opened RegexAutomaton
  import opened RegexStart
  import opened RegexTable
  import opened RegexRun
  import opened RegexBuild

  const A: Symbol := 97
  const B: Symbol := 98

  /** `k` letters a in a row, numbered from 1. */
  function Letters(k: nat): Re
    requires 1 <= k
  {
    if k == 1 then Atom(1, Char(A)) else Cat(Letters(k - 1), Atom(k, Char(A)))
  }

  /** `n` letters a, or `c` and b. */
  function Expression(n: nat, c: Symbol): Re
    requires 1 <= n
  {
    Or(Letters(n), Cat(Atom(n + 1, Char(c)), Atom(n + 2, Char(B))))
  }

  function Repeat(c: Symbol, n: nat): (w: seq<Symbol>)
    ensures |w| == n && forall i :: 0 <= i < n ==> w[i] == c
  {
    seq(n, _ => c)
  }

  // ----- Its words.

  lemma {:induction false} LettersLang(k: nat, w: seq<Symbol>)
    requires 1 <= k
    ensures Lang(Letters(k), w) <==> w == Repeat(A, k)
  {
    if k == 1 {
      assert w == Repeat(A, 1) <==> |w| == 1 && w[0] == A;
    } else {
      if Lang(Letters(k), w) {
        var i :| 0 <= i <= |w| && Lang(Letters(k - 1), w[..i]) && Lang(Atom(k, Char(A)), w[i..]);
        LettersLang(k - 1, w[..i]);
        OneMore(w, k, i);
      }
      if w == Repeat(A, k) {
        assert w[..k - 1] == Repeat(A, k - 1) && w == w[..k - 1] + [A];
        LettersLang(k - 1, w[..k - 1]);
        CatIntro(Letters(k - 1), Atom(k, Char(A)), w[..k - 1], [A]);
      }
    }
  }

  lemma OneMore(w: seq<Symbol>, k: nat, i: nat)
    requires 0 < k && i <= |w| && w[..i] == Repeat(A, k - 1) && |w[i..]| == 1 && w[i..][0] == A
    ensures w == Repeat(A, k)
  {
    assert w == w[..i] + w[i..];
  }

  lemma PairLang(i: nat, j: nat, c: Symbol, w: seq<Symbol>)
    requires c < NCHARS
    ensures Lang(Cat(Atom(i, Char(c)), Atom(j, Char(B))), w) <==> w == [c, B]
  {
    assert [c] + [B] == [c, B];
    CatIntro(Atom(i, Char(c)), Atom(j, Char(B)), [c], [B]);
    if Lang(Cat(Atom(i, Char(c)), Atom(j, Char(B))), w) {
      var k :| 0 <= k <= |w| && Lang(Atom(i, Char(c)), w[..k]) && Lang(Atom(j, Char(B)), w[k..]);
      assert w == w[..k] + w[k..];
    }
  }

  lemma ExpressionLang(n: nat, c: Symbol, w: seq<Symbol>)
    requires 1 <= n && c < NCHARS
    ensures Lang(Expression(n, c), w) <==> w == Repeat(A, n) || w == [c, B]
  {
    LettersLang(n, w);
    PairLang(n + 1, n + 2, c, w);
  }

  // ----- The rows of the expression.

  /** The row of a leaf whose context is followed by the positions `q`. */
  lemma LeafRow(rows: seq<Row>, l: Loc, q: set<nat>)
    requires RowOf(rows, l) && FollowPos(l.ctx) == q && (forall x :: x in q ==> x < |rows|)
    ensures rows[l.pos].leaf == l.leaf && Members(rows[l.pos].follow) == q
  {
    FollowPosIsFollowLocs(l.ctx);
    DescendingShape(q, |rows|);
  }

  ghost predicate RowsFor(rows: seq<Row>, t: Re, up: Ctx) {
    forall l :: l in AllLocs(t, up) ==> RowOf(rows, l)
  }

  lemma AtomRow(rows: seq<Row>, pos: nat, leaf: Leaf, up: Ctx, q: set<nat>)
    requires RowsFor(rows, Atom(pos, leaf), up) && FollowPos(up) == q
    requires pos < |rows| && forall x :: x in q ==> x < |rows|
    ensures rows[pos].leaf == leaf && Members(rows[pos].follow) == q
  {
    assert Loc(pos, leaf, up) in AllLocs(Atom(pos, leaf), up);
    LeafRow(rows, Loc(pos, leaf, up), q);
  }

  lemma {:induction false} LetterRows(rows: seq<Row>, k: nat, up: Ctx, q: nat)
    requires 1 <= k < |rows| && RowsFor(rows, Letters(k), up) && FollowPos(up) == {q} && q < |rows|
    ensures forall i :: 1 <= i <= k ==>
              rows[i].leaf == Char(A) && Members(rows[i].follow) == if i < k then {i + 1} else {q}
  {
    if k == 1 {
      AtomRow(rows, 1, Char(A), up, {q});
    } else {
      var last := Atom(k, Char(A));
      var inner := InCatLeft(last, up);
      CatRows(rows, Letters(k - 1), last, up);
      LetterRows(rows, k - 1, inner, k);
      AtomRow(rows, k, Char(A), InCatRight(up), {q});
    }
  }

  /** The rows of `Expression(n, c)`. */
  predicate RowsAre(rows: seq<Row>, n: nat, c: Symbol) {
    && |rows| == n + 4
    && rows[0].leaf == All && Members(rows[0].follow) == {0, 1, n + 1}
    && (forall i :: 1 <= i <= n ==>
          rows[i].leaf == Char(A) && Members(rows[i].follow) == if i < n then {i + 1} else {n + 3})
    && rows[n + 1].leaf == Char(c) && Members(rows[n + 1].follow) == {n + 2}
    && rows[n + 2].leaf == Char(B) && Members(rows[n + 2].follow) == {n + 3}
    && rows[n + 3].leaf == Final
  }

  lemma ExpressionRows(rows: seq<Row>, n: nat, c: Symbol)
    requires 1 <= n && Automaton(rows, Expression(n, c)) && |rows| == n + 4
    ensures RowsAre(rows, n, c)
  {
    var p := Expression(n, c);
    var up := InOr(InCatRight(InCatLeft(Atom(n + 3, Final), Root)));
    InnerRows(rows, p);
    OrRows(rows, p.left, p.right, up.up);
    assert FollowPos(up.up.up) == {n + 3} && FollowPos(up.up) == {n + 3} && FollowPos(up) == {n + 3};
    LetterRows(rows, n, up, n + 3);
    PairRows(rows, n, c, up);
    FinalRow(rows, p);
    StartOfExpression(n, c);
    AllRow(rows, p, {1, n + 1});
  }

  lemma InnerRows(rows: seq<Row>, p: Re)
    requires Automaton(rows, p)
    ensures RowsFor(rows, p, InCatRight(InCatLeft(Atom(|rows| - 1, Final), Root)))
  {
    var accept := |rows| - 1;
    var k := InCatLeft(Atom(accept, Final), Root);
    assert AllLocs(Wrap(p, accept), Root) ==
      AllLocs(Star(Atom(0, All)), InCatLeft(p, k)) + AllLocs(p, InCatRight(k)) +
      AllLocs(Atom(accept, Final), InCatRight(Root));
  }

  lemma OrRows(rows: seq<Row>, p: Re, q: Re, up: Ctx)
    requires RowsFor(rows, Or(p, q), up)
    ensures RowsFor(rows, p, InOr(up)) && RowsFor(rows, q, InOr(up))
  {
    assert AllLocs(Or(p, q), up) == AllLocs(p, InOr(up)) + AllLocs(q, InOr(up));
  }

  lemma CatRows(rows: seq<Row>, p: Re, q: Re, up: Ctx)
    requires RowsFor(rows, Cat(p, q), up)
    ensures RowsFor(rows, p, InCatLeft(q, up)) && RowsFor(rows, q, InCatRight(up))
  {
    assert AllLocs(Cat(p, q), up) == AllLocs(p, InCatLeft(q, up)) + AllLocs(q, InCatRight(up));
  }

  lemma PairRows(rows: seq<Row>, n: nat, c: Symbol, up: Ctx)
    requires 1 <= n && |rows| == n + 4 && FollowPos(up) == {n + 3} && RowsFor(rows, Expression(n, c).right, up)
    ensures rows[n + 1].leaf == Char(c) && Members(rows[n + 1].follow) == {n + 2}
    ensures rows[n + 2].leaf == Char(B) && Members(rows[n + 2].follow) == {n + 3}
  {
    hide RowsFor, RowOf, Members;
    var second := Atom(n + 2, Char(B));
    CatRows(rows, Atom(n + 1, Char(c)), second, up);
    assert FollowPos(InCatLeft(second, up)) == {n + 2} && FollowPos(InCatRight(up)) == {n + 3};
    AtomRow(rows, n + 1, Char(c), InCatLeft(second, up), {n + 2});
    AtomRow(rows, n + 2, Char(B), InCatRight(up), {n + 3});
  }

  lemma FinalRow(rows: seq<Row>, p: Re)
    requires Automaton(rows, p)
    ensures rows[|rows| - 1].leaf == Final
  {
    FinalIsLast(rows, p);
    assert RowOf(rows, Loc(|rows| - 1, Final, InCatRight(Root)));
  }

  lemma AllRow(rows: seq<Row>, p: Re, q: set<nat>)
    requires Automaton(rows, p) && Start(p, |rows| - 1) == q && forall x :: x in q ==> x < |rows|
    ensures rows[0].leaf == All && Members(rows[0].follow) == {0} + q
  {
    RowZero(rows, p);
    DescendingShape({0} + q, |rows|);
  }

  lemma StartOfExpression(n: nat, c: Symbol)
    requires 1 <= n
    ensures Start(Expression(n, c), n + 3) == {1, n + 1}
  {
    FollowPosIsFollowLocs(Ahead(Expression(n, c), n + 3));
    FirstOfLetters(n);
    var p := Expression(n, c);
    assert FirstPos(p.right) == {n + 1} && !Nullable(p.right);
    assert FirstPos(p) == {1, n + 1} && !Nullable(p);
  }

  lemma {:induction false} FirstOfLetters(k: nat)
    requires 1 <= k
    ensures !Nullable(Letters(k)) && FirstPos(Letters(k)) == {1}
  {
    if k > 1 { FirstOfLetters(k - 1); }
  }

  // ----- Steps.

  /** At most one of the positions reads the symbol. */
  lemma StepOne(rows: seq<Row>, p: set<nat>, c: Symbol, i: nat)
    requires i in p && i < |rows| && Matches(rows[i].leaf, c)
    requires forall j :: j in p && j < |rows| && j != i ==> !Matches(rows[j].leaf, c)
    ensures Step(rows, p, c) == Members(rows[i].follow)
  {
    forall x: nat ensures x in Step(rows, p, c) <==> x in rows[i].follow { StepHas(rows, p, c, |rows|, x); }
  }

  lemma StepNowhere(rows: seq<Row>, p: set<nat>, c: Symbol)
    requires forall j :: j in p && j < |rows| ==> !Matches(rows[j].leaf, c)
    ensures Step(rows, p, c) == {}
  {
    forall x: nat ensures x !in Step(rows, p, c) { StepHas(rows, p, c, |rows|, x); }
  }

  lemma StepNul(rows: seq<Row>, n: nat, c: Symbol, p: set<nat>)
    requires RowsAre(rows, n, c) && c != NUL
    ensures Step(rows, p, NUL) == {}
  {
    forall j | j in p && 0 <= j < |rows| ensures !Matches(rows[j].leaf, NUL) {
      assert j == 0 || j == n + 1 || j == n + 2 || j == n + 3 || 1 <= j <= n;
    }
    StepNowhere(rows, p, NUL);
  }

  lemma HatStarts(rows: seq<Row>, n: nat, c: Symbol)
    requires RowsAre(rows, n, c) && 1 <= n && (c == B || c == HAT)
    ensures AfterHat(rows, {1, n + 1}) == if c == HAT then {1, n + 1, n + 2} else {1, n + 1}
    ensures HatState(rows, {1, n + 1}) == if c == HAT then 3 else 2
  {
    var s := {1, n + 1};
    if c == HAT { StepOne(rows, s, HAT, n + 1); } else { StepNowhere(rows, s, HAT); }
    assert n + 2 !in s;
  }
}
