/** From a parse tree to a ready automaton: awk/b.c's penter, first, follow, cfoll, mkdfa. */
module RegexBuild {
  import opened RegexTree
  import opened RegexPositions
  import opened RegexAutomaton
  import opened RegexStart
  import opened RegexTable
  import opened RegexRun
  import opened RegexMatch
  import opened RegexScan
  import opened RegexMachine

  // ----- First and follow positions, without the contexts that identify the leaves.

  function FirstPos(t: Re): set<nat> {
    match t
    case Atom(pos, _) => {pos}
    case Star(a) => FirstPos(a)
    case Plus(a) => FirstPos(a)
    case Quest(a) => FirstPos(a)
    case Cat(a, b) => FirstPos(a) + (if Nullable(a) then FirstPos(b) else {})
    case Or(a, b) => FirstPos(a) + FirstPos(b)
  }

  function FollowPos(k: Ctx): set<nat>
    decreases k
  {
    match k
    case Root => {}
    case InStar(a, up) => FirstPos(a) + FollowPos(up)
    case InPlus(a, up) => FirstPos(a) + FollowPos(up)
    case InQuest(up) => FollowPos(up)
    case InOr(up) => FollowPos(up)
    case InCatLeft(b, up) => FirstPos(b) + (if Nullable(b) then FollowPos(up) else {})
    case InCatRight(up) => FollowPos(up)
  }

  lemma PositionsUnion(x: set<Loc>, y: set<Loc>)
    ensures Positions(x + y) == Positions(x) + Positions(y)
  {
    forall i | i in Positions(x) + Positions(y) ensures i in Positions(x + y) {
      var l :| l in x + y && l.pos == i;
    }
  }

  lemma {:induction false} FirstPosIsFirstLocs(t: Re, k: Ctx)
    ensures Positions(FirstLocs(t, k)) == FirstPos(t)
  {
    match t
    case Atom(pos, leaf) =>
      assert Loc(pos, leaf, k) in FirstLocs(t, k);
    case Star(a) => FirstPosIsFirstLocs(a, InStar(a, k));
    case Plus(a) => FirstPosIsFirstLocs(a, InPlus(a, k));
    case Quest(a) => FirstPosIsFirstLocs(a, InQuest(k));
    case Cat(a, b) =>
      FirstPosIsFirstLocs(a, InCatLeft(b, k));
      FirstPosIsFirstLocs(b, InCatRight(k));
      PositionsUnion(FirstLocs(a, InCatLeft(b, k)), FirstLocs(b, InCatRight(k)));
    case Or(a, b) =>
      FirstPosIsFirstLocs(a, InOr(k));
      FirstPosIsFirstLocs(b, InOr(k));
      PositionsUnion(FirstLocs(a, InOr(k)), FirstLocs(b, InOr(k)));
  }

  lemma {:induction false} FollowPosIsFollowLocs(k: Ctx)
    ensures Positions(FollowLocs(k)) == FollowPos(k)
    decreases k
  {
    match k
    case Root =>
    case InStar(a, up) =>
      FirstPosIsFirstLocs(a, k); FollowPosIsFollowLocs(up); PositionsUnion(FirstLocs(a, k), FollowLocs(up));
    case InPlus(a, up) =>
      FirstPosIsFirstLocs(a, k); FollowPosIsFollowLocs(up); PositionsUnion(FirstLocs(a, k), FollowLocs(up));
    case InQuest(up) => FollowPosIsFollowLocs(up);
    case InOr(up) => FollowPosIsFollowLocs(up);
    case InCatLeft(b, up) =>
      FirstPosIsFirstLocs(b, InCatRight(up)); FollowPosIsFollowLocs(up);
      PositionsUnion(FirstLocs(b, InCatRight(up)), FollowLocs(up));
    case InCatRight(up) => FollowPosIsFollowLocs(up);
  }

  /** All positions of a tree, or of what a context can reach, are below `n`. */
  predicate Below(t: Re, n: nat) {
    match t
    case Atom(pos, _) => pos < n
    case Star(a) => Below(a, n)
    case Plus(a) => Below(a, n)
    case Quest(a) => Below(a, n)
    case Cat(a, b) => Below(a, n) && Below(b, n)
    case Or(a, b) => Below(a, n) && Below(b, n)
  }

  predicate CtxBelow(k: Ctx, n: nat)
    decreases k
  {
    match k
    case Root => true
    case InStar(a, up) => Below(a, n) && CtxBelow(up, n)
    case InPlus(a, up) => Below(a, n) && CtxBelow(up, n)
    case InQuest(up) => CtxBelow(up, n)
    case InOr(up) => CtxBelow(up, n)
    case InCatLeft(b, up) => Below(b, n) && CtxBelow(up, n)
    case InCatRight(up) => CtxBelow(up, n)
  }

  lemma {:induction false} NumberedBelow(t: Re, n: nat, m: nat, top: nat)
    requires Numbered(t, n, m) && m <= top
    ensures Below(t, top) && n < m
  {
    match t
    case Atom(_, _) =>
    case Star(a) => NumberedBelow(a, n, m, top);
    case Plus(a) => NumberedBelow(a, n, m, top);
    case Quest(a) => NumberedBelow(a, n, m, top);
    case Cat(a, b) =>
      var j :| Numbered(a, n, j) && Numbered(b, j, m);
      NumberedBelow(b, j, m, top);
      NumberedBelow(a, n, j, top);
    case Or(a, b) =>
      var j :| Numbered(a, n, j) && Numbered(b, j, m);
      NumberedBelow(b, j, m, top);
      NumberedBelow(a, n, j, top);
  }

  /** The row of a leaf. */
  function RowFor(l: Loc, n: nat): Row {
    Row(l.leaf, Descending(FollowPos(l.ctx), n))
  }

  // ----- How many positions are marked.

  function CountMarks(s: seq<bool>): nat {
    if s == [] then 0 else CountMarks(s[..|s| - 1]) + if s[|s| - 1] then 1 else 0
  }

  lemma {:induction false} CountMark(s: seq<bool>, i: nat)
    requires i < |s|
    ensures CountMarks(s[i := true]) == CountMarks(s) + if s[i] then 0 else 1
  {
    var k := |s| - 1;
    if i == k {
      assert s[i := true][..k] == s[..k];
    } else {
      assert s[i := true][..k] == s[..k][i := true];
      CountMark(s[..k], i);
    }
  }

  /** A list of the marked positions has that many entries. */
  lemma {:induction false} CountListed(s: seq<bool>, q: set<nat>)
    requires forall i: nat :: i < |s| ==> (s[i] <==> i in q)
    ensures CountMarks(s) == |Descending(q, |s|)|
  {
    if s != [] { CountListed(s[..|s| - 1], q); }
  }

  /** The globals of the compiler: the position counter, the scratch vector and the number of its
      marks, the rows. */
  class Compiler {
    var poscnt: nat
    var setvec: array<bool>
    var setcnt: nat
    var re: array<Row>

    /** `setcnt` is the number of marks. */
    predicate Counted()
      reads this, setvec
    {
      setcnt == CountMarks(setvec[..])
    }

    constructor ()
      ensures poscnt == 0 && fresh(setvec) && fresh(re)
    {
      poscnt, setvec, setcnt, re := 0, new bool[0], 0, new Row[0];
    }

    /** Enter leaf indices, left to right. */
    method Penter(p: Re) returns (q: Re)
      modifies `poscnt
      ensures (q, poscnt) == Number(p, old(poscnt))
      decreases p
    {
      match p
      case Atom(_, leaf) =>
        q := Atom(poscnt, leaf);
        poscnt := poscnt + 1;
      case Star(a) =>
        var a' := Penter(a);
        q := Star(a');
      case Plus(a) =>
        var a' := Penter(a);
        q := Plus(a');
      case Quest(a) =>
        var a' := Penter(a);
        q := Quest(a');
      case Cat(a, b) =>
        var a' := Penter(a);
        var b' := Penter(b);
        q := Cat(a', b');
      case Or(a, b) =>
        var a' := Penter(a);
        var b' := Penter(b);
        q := Or(a', b');
    }

    /** Collect the first leaves of `p`; false exactly when `p` matches the empty string. */
    method First(p: Re) returns (b: bool)
      requires Below(p, setvec.Length) && Counted()
      modifies setvec, `setcnt
      ensures b <==> !Nullable(p)
      ensures Counted()
      ensures forall x :: 0 <= x < setvec.Length ==> (setvec[x] <==> old(setvec[x]) || x in FirstPos(p))
      decreases p
    {
      match p
      case Atom(pos, leaf) =>
        if !setvec[pos] {
          CountMark(setvec[..], pos);
          ghost var before := setvec[..];
          setvec[pos] := true;
          assert setvec[..] == before[pos := true];
          setcnt := setcnt + 1;
        }
        b := !IsEmptyClass(leaf);
      case Star(a) =>
        var _ := First(a);
        b := false;
      case Plus(a) =>
        b := First(a);
      case Quest(a) =>
        var _ := First(a);
        b := false;
      case Cat(l, r) =>
        b := First(l);
        if !b { b := First(r); }
      case Or(l, r) =>
        var br := First(r);
        var bl := First(l);
        b := bl && br;
    }

    /** Collect the leaves that can follow a subtree, climbing its ancestors. */
    method Follow(k: Ctx)
      requires CtxBelow(k, setvec.Length) && Counted()
      modifies setvec, `setcnt
      ensures Counted()
      ensures forall x :: 0 <= x < setvec.Length ==> (setvec[x] <==> old(setvec[x]) || x in FollowPos(k))
      decreases k
    {
      match k
      case Root =>
      case InStar(a, up) =>
        var _ := First(a);
        Follow(up);
      case InPlus(a, up) =>
        var _ := First(a);
        Follow(up);
      case InQuest(up) => Follow(up);
      case InOr(up) => Follow(up);
      case InCatLeft(b, up) =>
        var nonEmpty := First(b);
        if !nonEmpty { Follow(up); }
      case InCatRight(up) => Follow(up);
    }

    /** Enter the row of every leaf of `v`. */
    method Cfoll(v: Re, k: Ctx, ghost n: nat, ghost m: nat)
      requires Numbered(v, n, m) && m <= re.Length == setvec.Length && CtxBelow(k, re.Length)
      modifies setvec, `setcnt, re
      ensures forall i :: 0 <= i < re.Length && !(n <= i < m) ==> re[i] == old(re[i])
      ensures forall l :: l in AllLocs(v, k) ==> n <= l.pos < m && re[l.pos] == RowFor(l, re.Length)
      decreases v, 1
    {
      NumberedBelow(v, n, m, re.Length);
      match v
      case Atom(pos, leaf) =>
        for i := 0 to setvec.Length
          invariant forall j :: 0 <= j < i ==> !setvec[j]
          invariant re[..] == old(re[..])
        {
          setvec[i] := false;
        }
        setcnt := 0;
        CountListed(setvec[..], {});
        DescendingEmpty(setvec.Length);
        Follow(k);
        CountListed(setvec[..], FollowPos(k));
        var p := Marked(setvec, FollowPos(k));
        assert setcnt == |p|;
        re[pos] := Row(leaf, p);
      case Star(a) => Cfoll(a, InStar(a, k), n, m);
      case Plus(a) => Cfoll(a, InPlus(a, k), n, m);
      case Quest(a) => Cfoll(a, InQuest(k), n, m);
      case Cat(a, b) => CfollBoth(v, a, InCatLeft(b, k), b, InCatRight(k), n, m);
      case Or(a, b) => CfollBoth(v, a, InOr(k), b, InOr(k), n, m);
    }

    method CfollBoth(ghost v: Re, a: Re, ka: Ctx, b: Re, kb: Ctx, ghost n: nat, ghost m: nat)
      requires v == Cat(a, b) || v == Or(a, b)
      requires (exists j :: Numbered(a, n, j) && Numbered(b, j, m)) && m <= re.Length == setvec.Length
      requires CtxBelow(ka, re.Length) && CtxBelow(kb, re.Length)
      modifies setvec, `setcnt, re
      ensures forall i :: 0 <= i < re.Length && !(n <= i < m) ==> re[i] == old(re[i])
      ensures forall l :: l in AllLocs(a, ka) ==> n <= l.pos < m && re[l.pos] == RowFor(l, re.Length)
      ensures forall l :: l in AllLocs(b, kb) ==> n <= l.pos < m && re[l.pos] == RowFor(l, re.Length)
      decreases v, 0
    {
      ghost var j :| Numbered(a, n, j) && Numbered(b, j, m);
      NumberedBelow(b, j, m, re.Length);
      NumberedBelow(a, n, j, re.Length);
      Cfoll(a, ka, n, j);
      Cfoll(b, kb, j, m);
    }
  }

  // ----- mkdfa

  /** The tree that `mkdfa` builds around a parsed expression, before leaves are numbered. */
  function Wrapped(p: Re): Re {
    Cat(Cat(Star(Atom(0, All)), p), Atom(0, Final))
  }

  lemma NumberWrapped(p: Re)
    ensures var (q, n) := Number(p, 1); Number(Wrapped(p), 0) == (Wrap(q, n), n + 1)
  {
    assert Number(Star(Atom(0, All)), 0) == (Star(Atom(0, All)), 1);
  }

  lemma {:induction false} NumberKeepsPlain(p: Re, n: nat)
    requires Plain(p)
    ensures Plain(Number(p, n).0)
  {
    match p
    case Atom(_, _) =>
    case Star(a) => NumberKeepsPlain(a, n);
    case Plus(a) => NumberKeepsPlain(a, n);
    case Quest(a) => NumberKeepsPlain(a, n);
    case Cat(a, b) => NumberKeepsPlain(a, n); NumberKeepsPlain(b, Number(a, n).1);
    case Or(a, b) => NumberKeepsPlain(a, n); NumberKeepsPlain(b, Number(a, n).1);
  }

  lemma {:induction false} NumberKeepsNoHat(p: Re, n: nat)
    requires NoHat(p)
    ensures NoHat(Number(p, n).0)
  {
    match p
    case Atom(_, _) =>
    case Star(a) => NumberKeepsNoHat(a, n);
    case Plus(a) => NumberKeepsNoHat(a, n);
    case Quest(a) => NumberKeepsNoHat(a, n);
    case Cat(a, b) => NumberKeepsNoHat(a, n); NumberKeepsNoHat(b, Number(a, n).1);
    case Or(a, b) => NumberKeepsNoHat(a, n); NumberKeepsNoHat(b, Number(a, n).1);
  }

  lemma NumberedWrap(q: Re, n: nat)
    requires Numbered(q, 1, n)
    ensures Numbered(Wrap(q, n), 0, n + 1)
  {
    assert Numbered(Star(Atom(0, All)), 0, 1);
    assert Numbered(Cat(Star(Atom(0, All)), q), 0, n);
    assert Numbered(Atom(n, Final), n, n + 1);
  }

  lemma FloatsUnnumbered(p: Re, n: nat, w: seq<Symbol>)
    ensures Floats(Number(p, n).0, w) <==> Floats(p, w)
  {
    var q := Number(p, n).0;
    forall v: seq<Symbol> ensures Lang(q, v) <==> Lang(p, v) { NumberKeepsLang(p, n, v); }
    if Floats(q, w) {
      var k :| 0 <= k <= |w| && NUL !in w[..k] && Lang(q, w[k..]);
      assert Lang(p, w[k..]);
    }
    if Floats(p, w) {
      var k :| 0 <= k <= |w| && NUL !in w[..k] && Lang(p, w[k..]);
      assert Lang(q, w[k..]);
    }
  }

  /** Recognising depends on the language only, not on the numbers in the tree. */
  lemma RecognisesUnnumbered(rows: seq<Row>, s: set<nat>, p: Re, n: nat)
    requires Recognises(rows, s, Number(p, n).0)
    ensures Recognises(rows, s, p)
  {
    var q := Number(p, n).0;
    forall w: seq<Symbol> | Text(w)
      ensures MatchesWord(q, false, w) <==> MatchesWord(p, false, w)
      ensures MatchesWord(q, true, w) <==> MatchesWord(p, true, w)
      ensures Floats(q, [HAT] + w) <==> Floats(p, [HAT] + w)
    {
      NumberKeepsLang(p, n, w);
      NumberKeepsLang(p, n, [HAT] + w);
      FloatsUnnumbered(p, n, [HAT] + w);
    }
  }

  /** The rows of the automaton of `p`. */
  method Compile(p: Re) returns (rows: seq<Row>, ghost q: Re)
    requires Plain(p)
    ensures q == Number(p, 1).0 && Automaton(rows, q)
    ensures Listing(rows[0].follow, |rows|)
  {
    var c := new Compiler();
    var root := c.Penter(Wrapped(p));
    var n := c.poscnt;
    NumberWrapped(p);
    NumberNumbers(p, 1);
    q := Number(p, 1).0;
    NumberedWrap(q, n - 1);
    NumberKeepsPlain(p, 1);
    c.setvec := new bool[n];
    c.re := new Row[n](_ => Row(All, []));
    c.Cfoll(root, Root, 0, n);
    rows := c.re[..];
    RowsAutomaton(rows, q);
  }

  /** Rows entered for every leaf of the wrapped tree are its automaton. */
  lemma RowsAutomaton(rows: seq<Row>, q: Re)
    requires |rows| > 2 && Plain(q) && Numbered(q, 1, |rows| - 1)
    requires forall l :: l in AllLocs(Wrap(q, |rows| - 1), Root) ==>
               l.pos < |rows| && rows[l.pos] == Row(l.leaf, Descending(FollowPos(l.ctx), |rows|))
    ensures Automaton(rows, q) && Listing(rows[0].follow, |rows|)
  {
    var root := Wrap(q, |rows| - 1);
    NumberedWrap(q, |rows| - 1);
    forall l | l in AllLocs(root, Root) ensures RowOf(rows, l) { FollowPosIsFollowLocs(l.ctx); }
    forall i | 0 <= i < |rows| ensures forall x :: x in rows[i].follow ==> x < |rows| {
      LeafAt(root, Root, 0, |rows|, i);
    }
    LeafAt(root, Root, 0, |rows|, 0);
    var l :| l in AllLocs(root, Root) && l.pos == 0;
    var s := set x | x in FollowPos(l.ctx) && x < |rows|;
    DescendingShape(FollowPos(l.ctx), |rows|);
    DescendingOf(FollowPos(l.ctx), Members(rows[0].follow), |rows|);
  }

  /** Every position of a numbered tree has a leaf. */
  lemma {:induction false} LeafAt(t: Re, k: Ctx, n: nat, m: nat, i: nat)
    requires Numbered(t, n, m) && n <= i < m
    ensures exists l :: l in AllLocs(t, k) && l.pos == i
  {
    match t
    case Atom(pos, leaf) => assert Loc(pos, leaf, k) in AllLocs(t, k);
    case Star(a) => LeafAt(a, InStar(a, k), n, m, i);
    case Plus(a) => LeafAt(a, InPlus(a, k), n, m, i);
    case Quest(a) => LeafAt(a, InQuest(k), n, m, i);
    case Cat(a, b) =>
      var j :| Numbered(a, n, j) && Numbered(b, j, m);
      if i < j { LeafAt(a, InCatLeft(b, k), n, j, i); } else { LeafAt(b, InCatRight(k), j, m, i); }
    case Or(a, b) =>
      var j :| Numbered(a, n, j) && Numbered(b, j, m);
      if i < j { LeafAt(a, InOr(k), n, j, i); } else { LeafAt(b, InOr(k), j, m, i); }
  }

  /** A new automaton object for the rows, its first states made. */
  method NewFa(rows: seq<Row>, ghost p: Re, ghost s0: set<nat>, anchor: bool) returns (f: Fa)
    requires RowsOk(rows) && Listing(rows[0].follow, |rows|) && Starts(rows, s0)
    ensures fresh(f) && fresh(f.gototab) && fresh(f.posns) && fresh(f.out)
    ensures f.Valid() && f.rows == rows && f.expr == p && f.starts == s0 && !f.reset
    ensures f.initstat == f.curstat
    ensures exists t0 :: Shape(t0) && DeadOk(t0) && f.View() == MakeInit(rows, t0, anchor).(initstat := f.initstat)
  {
    f := new Fa(rows, p, s0);
    ghost var t0 := f.View();
    var s := f.Makeinit(anchor);
    ghost var t := f.View();
    f.initstat := s;
    assert f.View() == t.(initstat := s);
  }

  /** The tables that `makeinit` leaves are ready for the first call. */
  lemma FirstTable(rows: seq<Row>, s0: set<nat>, anchor: bool, t0: Table, t: Table, i: nat)
    requires Starts(rows, s0) && Shape(t0) && DeadOk(t0) && t == MakeInit(rows, t0, anchor).(initstat := i)
    requires i == t.curstat
    ensures !anchor ==> Searchable(rows, s0, t)
    ensures anchor ==> Usable(rows, s0, t) && SeesHat(rows, s0, t)
  {
    var t1 := MakeInit(rows, t0, anchor);
    if anchor {
      MakeInitAnchored(rows, s0, t0, t1);
    } else {
      MakeInitFloating(rows, s0, t0, t1);
    }
    SoundIgnoresInitstat(rows, t1, i);
  }

  /** A new automaton for a parsed expression, ready for its first call. */
  method Mkdfa(p: Re, anchor: bool) returns (f: Fa)
    requires Plain(p)
    ensures fresh(f) && fresh(f.gototab) && fresh(f.posns) && fresh(f.out)
    ensures f.Valid() && f.expr == p && Recognises(f.rows, f.starts, p) && !f.reset
    ensures NoHat(p) ==> HatState(f.rows, f.starts) == 2
    ensures !anchor ==> Searchable(f.rows, f.starts, f.View())
    ensures anchor ==> Usable(f.rows, f.starts, f.View()) && SeesHat(f.rows, f.starts, f.View())
  {
    var rows, s0 := CompileRecognises(p);
    f := NewFa(rows, p, s0, anchor);
    ghost var t0 :| Shape(t0) && DeadOk(t0) && f.View() == MakeInit(rows, t0, anchor).(initstat := f.initstat);
    FirstTable(rows, s0, anchor, t0, f.View(), f.initstat);
  }

  /** The rows of `p` and their start positions. */
  method CompileRecognises(p: Re) returns (rows: seq<Row>, ghost s0: set<nat>)
    requires Plain(p)
    ensures RowsOk(rows) && Listing(rows[0].follow, |rows|) && Recognises(rows, s0, p)
    ensures NoHat(p) ==> HatState(rows, s0) == 2
  {
    ghost var q;
    rows, q := Compile(p);
    AutomatonRecognises(rows, q);
    s0 := Start(q, |rows| - 1);
    RecognisesUnnumbered(rows, s0, p, 1);
    if NoHat(p) {
      NumberKeepsNoHat(p, 1);
      NoHatPlainStart(rows, q);
    }
  }

  lemma SoundIgnoresInitstat(rows: seq<Row>, t: Table, i: nat)
    requires |rows| > 0 && Sound(rows, t)
    ensures Sound(rows, t.(initstat := i))
  {
    var t' := t.(initstat := i);
    forall q: nat | Live(t', q) ensures StateOk(rows, t', q) { assert StateOk(rows, t, q); }
    forall q: nat, r: nat | Live(t', q) && Live(t', r) && q != r ensures Differ(t', q, r) { assert Differ(t, q, r); }
    forall q: nat, c: nat | Live(t', q) && c < HAT ensures EntryOk(rows, t', q, c) && EntryLive(t', q, c) {
      assert EntryOk(rows, t, q, c) && EntryLive(t, q, c);
    }
  }
}
