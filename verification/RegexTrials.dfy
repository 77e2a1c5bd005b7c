/** The counterexamples as runs of the program: the automaton is built, and the searches are made
    one after the other. */
module RegexTrials {
  import opened RegexTree
  import opened RegexAutomaton
  import opened RegexTable
  import opened RegexRun
  import opened RegexMatch
  import opened RegexScan
  import opened RegexMachine
  import opened RegexBuild
  import opened RegexGsub
  import opened RegexFamily
  import opened RegexStale
  import opened RegexWrong

  lemma {:induction false} LettersNumber(k: nat)
    requires 1 <= k
    ensures Plain(Letters(k)) && Number(Letters(k), 1) == (Letters(k), k + 1)
  {
    if k > 1 { LettersNumber(k - 1); }
  }

  /** The expressions are numbered as they are built. */
  lemma ExpressionNumber(n: nat, c: Symbol)
    requires 1 <= n
    ensures Plain(Expression(n, c)) && Number(Expression(n, c), 1) == (Expression(n, c), n + 3)
  {
    LettersNumber(n);
    assert Number(Expression(n, c).right, n + 1) == (Expression(n, c).right, n + 3);
  }

  /** The leaves of a tree tell how many there are. */
  lemma {:induction false} NumberedOnce(t: Re, n: nat, m: nat)
    requires Numbered(t, n, m)
    ensures m == Number(t, n).1
    decreases t, 1
  {
    match t
    case Atom(_, _) =>
    case Star(a) => NumberedOnce(a, n, m);
    case Plus(a) => NumberedOnce(a, n, m);
    case Quest(a) => NumberedOnce(a, n, m);
    case Cat(a, b) => NumberedBoth(t, a, b, n, m);
    case Or(a, b) => NumberedBoth(t, a, b, n, m);
  }

  lemma {:induction false} NumberedBoth(t: Re, a: Re, b: Re, n: nat, m: nat)
    requires (t == Cat(a, b) || t == Or(a, b)) && exists j :: Numbered(a, n, j) && Numbered(b, j, m)
    ensures m == Number(b, Number(a, n).1).1
    decreases t, 0
  {
    var j: nat :| Numbered(a, n, j) && Numbered(b, j, m);
    NumberedOnce(a, n, j);
    NumberedOnce(b, j, m);
  }

  lemma RowCount(rows: seq<Row>, p: Re, n: nat)
    requires Automaton(rows, p) && Number(p, 1).1 == n - 1
    ensures |rows| == n
  {
    NumberedOnce(p, 1, |rows| - 1);
  }

  /** `mkdfa` for one of the expressions. */
  method NewAutomaton(n: nat, c: Symbol) returns (f: Fa, ghost t0: Table)
    requires 29 <= n <= 30 && (c == B || c == HAT)
    ensures fresh(f) && fresh(f.gototab) && fresh(f.posns) && fresh(f.out)
    ensures f.Valid() && f.expr == Expression(n, c) && f.starts == S0(n) && FreshTable(f.rows, n, c, t0, f.View())
    ensures Recognises(f.rows, S0(n), Expression(n, c)) && Usable(f.rows, S0(n), f.View())
  {
    var p := Expression(n, c);
    ExpressionNumber(n, c);
    ghost var q;
    var rows;
    rows, q := Compile(p);
    RowCount(rows, p, n + 4);
    SettingRows(rows, n, c);
    f := NewFa(rows, p, S0(n), true);
    t0 :| Shape(t0) && DeadOk(t0) && f.View() == MakeInit(rows, t0, true).(initstat := f.initstat);
    FreshFilled(rows, n, c, t0, f.View());
  }

  /** `mkdfa` for searches that are not anchored, with thirty a or bb. */
  method NewFloating() returns (f: Fa, ghost t0: Table)
    ensures fresh(f) && fresh(f.gototab) && fresh(f.posns) && fresh(f.out)
    ensures f.Valid() && f.expr == Expression(30, B) && |f.rows| == 34 && Automaton(f.rows, f.expr)
    ensures Shape(t0) && DeadOk(t0)
    ensures f.View() == MakeInit(f.rows, t0, false).(initstat := 2)
    ensures Recognises(f.rows, f.starts, f.expr) && Searchable(f.rows, f.starts, f.View())
  {
    hide Automaton, Recognises, Starts, MakeInit, Searchable, Expression;
    var p := Expression(30, B);
    ExpressionNumber(30, B);
    ghost var q;
    var rows;
    rows, q := Compile(p);
    RowCount(rows, p, 34);
    FloatingStarts(rows);
    f := NewFa(rows, p, S0(30), false);
    t0 :| Shape(t0) && DeadOk(t0) && f.View() == MakeInit(rows, t0, false).(initstat := f.initstat);
    FloatingReady(rows, t0, f.View());
  }

  lemma FloatingStarts(rows: seq<Row>)
    requires Automaton(rows, Expression(30, B)) && |rows| == 34
    ensures RowsOk(rows) && Starts(rows, S0(30)) && Recognises(rows, S0(30), Expression(30, B))
  {
    AutomatonRecognises(rows, Expression(30, B));
    StartOfExpression(30, B);
  }

  lemma FloatingReady(rows: seq<Row>, t0: Table, t: Table)
    requires Automaton(rows, Expression(30, B)) && |rows| == 34 && Starts(rows, S0(30)) && Shape(t0) && DeadOk(t0)
    requires t == MakeInit(rows, t0, false).(initstat := t.initstat) && t.initstat == t.curstat
    ensures t.initstat == 2 && Searchable(rows, S0(30), t)
  {
    hide Searchable, MakeInit;
    FirstTable(rows, S0(30), false, t0, t, t.initstat);
    MakeInitFloating(rows, S0(30), t0, MakeInit(rows, t0, false));
    ExpressionRows(rows, 30, B);
    HatStarts(rows, 30, B);
  }

  /** `match` does not find bb in bb, after a search of 29 letters a. */
  method MatchBb() returns (found: bool)
    ensures !found
    ensures Contains(Expression(30, B), [B, B])
  {
    hide Contains, MatchTop, MatchTopClean, Automaton, Recognises, MakeInit, Searchable;
    var f;
    ghost var t0;
    f, t0 := NewFloating();
    MatchCanBeWrong(f.rows, t0, f.View());
    found := f.Match(Repeat(A, 29));
    found := f.Match([B, B]);
  }

  /** A search of bb for a...a|bb, after one of 29 letters a. */
  method SearchBb() returns (a: Answer)
    ensures !a.found
    ensures MatchesAt(Expression(29, B), false, [B, B], 0, 2)
  {
    hide PTop, GsubTop, FreshTable, MatchesAt, PTopClean, GsubClean, SeesHat, Recognises, Usable;
    var f;
    ghost var t0;
    f, t0 := NewAutomaton(29, B);
    PmatchCanBeWrong(f.rows, t0, f.View());
    a := f.Pmatch(Repeat(A, 29));
    a := f.Pmatch([B, B]);
  }

  /** A search of b for a...a|^b, after one of 29 letters a and one of the empty text. */
  method SearchB() returns (a: Answer)
    ensures !a.found
    ensures MatchesAt(Expression(30, HAT), true, [B], 0, 1)
  {
    hide PTop, GsubTop, FreshTable, MatchesAt, PTopClean, GsubClean, SeesHat, Recognises, Usable;
    var f;
    ghost var t0;
    f, t0 := NewAutomaton(30, HAT);
    HatCanBeLost(f.rows, t0, f.View());
    a := f.Pmatch(Repeat(A, 29));
    a := f.Pmatch([]);
    a := f.Pmatch([B]);
  }

  /** `gsub` with a...a|^b and `r` on the text a...ab: one match, two replacements. */
  method ReplaceTwice(r: seq<Symbol>) returns (buf: seq<Symbol>, num: nat)
    ensures num == 2
    ensures Rewritten(Lengths(Expression(29, HAT), true, LettersB()), LettersB(), Fill(r), 0, false).1 == 1
  {
    hide PTop, GsubTop, FreshTable, MatchesAt, PTopClean, GsubClean, SeesHat, Recognises, Usable;
    var f;
    ghost var t0;
    f, t0 := NewAutomaton(29, HAT);
    GsubCanBeWrong(f.rows, t0, f.View(), Fill(r));
    buf, num := Gsub(f, LettersB(), r);
  }
}
