/** Why the theorems about `pmatch` and `gsub` need their side conditions: expressions and texts
    on which a flush makes them go wrong. */
module RegexWrong {
  import opened RegexTree
  import opened RegexAutomaton
  import opened RegexStart
  import opened RegexTable
  import opened RegexRun
  import opened RegexMatch
  import opened RegexScan
  import opened RegexBuild
  import opened RegexGsub
  import opened RegexFamily

  /** The expressions: `n` letters a, or `c` and b. */
  ghost predicate Setting(rows: seq<Row>, n: nat, c: Symbol) {
    && 29 <= n <= 30 && (c == B || c == HAT)
    && |rows| == n + 4 && Automaton(rows, Expression(n, c))
  }

  /** A new table for `pmatch` on such an expression. */
  ghost predicate FreshTable(rows: seq<Row>, n: nat, c: Symbol, t0: Table, t: Table) {
    && Setting(rows, n, c) && Shape(t0) && DeadOk(t0)
    && t == MakeInit(rows, t0, true).(initstat := MakeInit(rows, t0, true).curstat)
  }

  function S0(n: nat): set<nat> {
    {1, n + 1}
  }

  lemma SettingRows(rows: seq<Row>, n: nat, c: Symbol)
    requires Setting(rows, n, c)
    ensures RowsAre(rows, n, c) && Starts(rows, S0(n)) && Recognises(rows, S0(n), Expression(n, c))
    ensures AfterHat(rows, S0(n)) == Active(n, c, 0) && HatState(rows, S0(n)) == Base(c)
  {
    ExpressionRows(rows, n, c);
    StartOfExpression(n, c);
    AutomatonStarts(rows, Expression(n, c));
    AutomatonRecognises(rows, Expression(n, c));
    HatStarts(rows, n, c);
  }

  // ----- Steps on a table.

  /** A step on a sound table that is not full. */
  lemma LookGoes(rows: seq<Row>, t: Table, s: nat, c: Symbol)
    requires |rows| > 0 && Sound(rows, t) && Live(t, s) && c < HAT && !IsFull(t)
    ensures var r := Look(rows, t, s, c); var q := Step(rows, t.posns[s], c);
            && Sound(rows, r.0) && Live(r.0, r.1) && r.0.posns[r.1] == q && r.0.reset == t.reset
            && (r.1 == 1 <==> q == {}) && (r.0.out[r.1] <==> |rows| - 1 in q) && r.0.curstat <= t.curstat + 1
  {
    LookSound(rows, t, s, c);
    LookRightIff(rows, t, s, c);
    var r := Look(rows, t, s, c);
    assert StateOk(rows, r.0, r.1);
    assert r.1 != 1 ==> Differ(r.0, r.1, 1);
  }

  /** A step into the dead state that is not in the table yet. */
  lemma LookDies(rows: seq<Row>, t: Table, s: nat, c: Symbol)
    requires Shape(t) && s < NSTATES && c < NCHARS && t.goto[s][c] == 0 && 1 <= t.curstat && t.posns[1] == {}
    requires Step(rows, t.posns[s], c) == {}
    ensures Look(rows, t, s, c) == (SetGoto(t, s, c, 1), 1)
  {
    assert FindState(t, {}, 1) == 1;
  }

  /** A step into a new state of a full table. */
  lemma LookFlushes(rows: seq<Row>, t: Table, s: nat, c: Symbol, p: set<nat>)
    requires Shape(t) && s < NSTATES && c < NCHARS && t.goto[s][c] == 0 && IsFull(t) && p == Step(rows, t.posns[s], c)
    requires forall i :: 1 <= i <= t.curstat ==> t.posns[i] != p
    ensures var r := Look(rows, t, s, c);
            && r.1 == 2 && r.0.curstat == 2 && r.0.reset && r.0.posns[2] == p && r.0.posns[1] == t.posns[1]
            && (r.0.out[2] <==> |rows| - 1 in p) && r.0.goto[2] == if s == 2 then ZeroRow()[c := 2] else ZeroRow()
  {
  }

  // ----- The letters a fill the table.

  /** The first state: 3, behind that without `^`, if the expression begins with `^`. */
  function Base(c: Symbol): nat {
    if c == HAT then 3 else 2
  }

  /** Positions active after `j` letters. */
  function Active(n: nat, c: Symbol, j: nat): set<nat> {
    if j == 0 then (if c == HAT then {1, n + 1, n + 2} else {1, n + 1})
    else if j < n then {j + 1}
    else {n + 3}
  }

  lemma StepActive(rows: seq<Row>, n: nat, c: Symbol, j: nat)
    requires RowsAre(rows, n, c) && 1 < n && (c == B || c == HAT) && j < n
    ensures Step(rows, Active(n, c, j), A) == Active(n, c, j + 1)
  {
    StepOne(rows, Active(n, c, j), A, j + 1);
  }

  lemma ActiveDiffer(n: nat, c: Symbol, i: nat, j: nat)
    requires i < j <= n && 1 < n
    ensures Active(n, c, i) != Active(n, c, j) && Active(n, c, j) != {} && Active(n, c, j) != S0(n)
  {
    assert (if j < n then j + 1 else n + 3) in Active(n, c, j);
    assert 1 !in Active(n, c, j);
    assert 1 in S0(n) && (i == 0 ==> 1 in Active(n, c, i));
  }

  /** After `j` letters the table has the states of 0, 1, ..., j letters and the plain start. */
  ghost predicate Filled(rows: seq<Row>, n: nat, c: Symbol, t: Table, j: nat) {
    && Sound(rows, t) && !t.reset && t.curstat == Base(c) + j && j <= n
    && t.posns[0] == t.posns[2] == S0(n)
    && (forall i :: 0 <= i <= j ==> t.posns[Base(c) + i] == Active(n, c, i))
    && t.goto[t.curstat][A] == 0 && t.goto[t.curstat][NUL] == 0 && t.goto[t.curstat][B] == 0 && t.goto[2][B] == 0
  }

  lemma FilledAway(rows: seq<Row>, n: nat, c: Symbol, t: Table, j: nat)
    requires Filled(rows, n, c, t, j) && 1 < n && j < n
    ensures forall i :: 1 <= i <= t.curstat ==> t.posns[i] != Active(n, c, j + 1)
  {
    var h := Base(c);
    forall i | 1 <= i <= t.curstat ensures t.posns[i] != Active(n, c, j + 1) {
      if i >= h {
        assert t.posns[h + (i - h)] == Active(n, c, i - h);
        ActiveDiffer(n, c, i - h, j + 1);
      } else {
        ActiveDiffer(n, c, 0, j + 1);
      }
    }
  }

  lemma FillOne(rows: seq<Row>, n: nat, c: Symbol, t: Table, j: nat)
    requires RowsAre(rows, n, c) && 1 < n && (c == B || c == HAT) && Filled(rows, n, c, t, j) && j < n && !IsFull(t)
    ensures !t.out[t.curstat]
    ensures var r := Look(rows, t, t.curstat, A); Filled(rows, n, c, r.0, j + 1) && r.1 == t.curstat + 1
  {
    StepActive(rows, n, c, j);
    FilledAway(rows, n, c, t, j);
    assert StateOk(rows, t, t.curstat) && t.posns[Base(c) + j] == Active(n, c, j);
    assert FindState(t, Active(n, c, j + 1), 1) == 0;
    CGotoSoundIff(rows, t, t.curstat, A);
  }

  lemma FilledShape(rows: seq<Row>, n: nat, c: Symbol, t: Table, j: nat)
    requires Filled(rows, n, c, t, j)
    ensures Shape(t) && t.curstat == Base(c) + j
  {
  }

  /** What a scan does with `m` letters. */
  lemma {:induction false} FillScan(rows: seq<Row>, n: nat, c: Symbol, t: Table, j: nat, m: nat, w: seq<Symbol>)
    returns (t': Table)
    requires RowsAre(rows, n, c) && 1 < n && (c == B || c == HAT) && Filled(rows, n, c, t, j) && j + m <= n
    requires Base(c) + j + m < NSTATES && Bytes(w) && w != []
    ensures Filled(rows, n, c, t', j + m)
    ensures Bytes(Repeat(A, m) + w) &&
            ScanRun(rows, t, t.curstat, Repeat(A, m) + w, j, -1) == ScanRun(rows, t', t'.curstat, w, j + m, -1)
    decreases m
  {
    hide Filled, Look, Sound, RowsAre;
    FilledShape(rows, n, c, t, j);
    if m == 0 {
      assert Repeat(A, 0) + w == w;
      t' := t;
    } else {
      FillOne(rows, n, c, t, j);
      FilledShape(rows, n, c, Look(rows, t, t.curstat, A).0, j + 1);
      var w' := Repeat(A, m) + w;
      assert w'[0] == A && w'[1..] == Repeat(A, m - 1) + w;
      t' := FillScan(rows, n, c, Look(rows, t, t.curstat, A).0, j + 1, m - 1, w);
    }
  }

  /** A new table is ready, with the first state as its start state. */
  lemma FreshFilled(rows: seq<Row>, n: nat, c: Symbol, t0: Table, t: Table)
    requires FreshTable(rows, n, c, t0, t)
    ensures RowsAre(rows, n, c) && Starts(rows, S0(n)) && HatState(rows, S0(n)) == Base(c)
    ensures Filled(rows, n, c, t, 0) && t.initstat == Base(c) && Usable(rows, S0(n), t) && SeesHat(rows, S0(n), t)
  {
    SettingRows(rows, n, c);
    var t1 := MakeInit(rows, t0, true);
    MakeInitAnchored(rows, S0(n), t0, t1);
    MakeInitFloating(rows, S0(n), t0, MakeInit(rows, t0, false));
    FirstTable(rows, S0(n), true, t0, t, t.initstat);
  }

  // ----- The ends of scans.

  /** At the end of the text a state that does not accept is left for the dead one. */
  lemma ScanEnd(rows: seq<Row>, n: nat, c: Symbol, t: Table, s: nat, q: nat, len: int)
    requires RowsAre(rows, n, c) && (c == B || c == HAT) && Sound(rows, t) && Live(t, s) && !IsFull(t)
    ensures var r := ScanRun(rows, t, s, [NUL], q, len);
            r.1 == (if |rows| - 1 in t.posns[s] then q else len) && r.0.reset == t.reset
  {
    StepNul(rows, n, c, t.posns[s]);
    LookGoes(rows, t, s, NUL);
    assert StateOk(rows, t, s);
  }

  /** The same behind one b. */
  lemma ScanB(rows: seq<Row>, n: nat, c: Symbol, t: Table, s: nat)
    requires RowsAre(rows, n, c) && (c == B || c == HAT) && Sound(rows, t) && Live(t, s) && t.curstat < 30
    requires |rows| - 1 !in t.posns[s]
    ensures var r := ScanRun(rows, t, s, [B, NUL], 0, -1);
            r.1 == (if |rows| - 1 in Step(rows, t.posns[s], B) then 1 else -1) && r.0.reset == t.reset
  {
    assert [B, NUL][1..] == [NUL];
    LookGoes(rows, t, s, B);
    assert StateOk(rows, t, s);
    var (t', s') := Look(rows, t, s, B);
    if s' != 1 { ScanEnd(rows, n, c, t', s', 1, -1); }
  }

  // ----- Line 825: `pmatch` with a...a|bb.

  lemma StepStart(rows: seq<Row>, n: nat, c: Symbol)
    requires RowsAre(rows, n, c) && 1 < n && (c == B || c == HAT)
    ensures Step(rows, S0(n), B) == if c == B then {n + 2} else {}
    ensures c == HAT ==> Step(rows, Active(n, c, 0), B) == {n + 3}
  {
    if c == B {
      StepOne(rows, S0(n), B, n + 1);
    } else {
      StepNowhere(rows, S0(n), B);
      StepOne(rows, Active(n, c, 0), B, n + 2);
    }
  }

  /** A full table in which nothing is known on b. */
  ghost predicate Ripe(rows: seq<Row>, t: Table) {
    && Usable(rows, S0(29), t) && !t.reset && t.initstat == 2 && t.curstat == 31 && t.goto[2][B] == 0
    && forall i :: 0 <= i <= 29 ==> t.posns[2 + i] == Active(29, B, i)
  }

  /** The text of 29 letters is found and fills the table. */
  lemma Ripens(rows: seq<Row>, t0: Table, t: Table)
    requires FreshTable(rows, 29, B, t0, t)
    ensures Ripe(rows, PTop(rows, t, Repeat(A, 29), false).0)
  {
    var text := Repeat(A, 29);
    FreshFilled(rows, 29, B, t0, t);
    PTopKeeps(rows, S0(29), t, text, false);
    var t' := FillScan(rows, 29, B, t, 0, 29, [NUL]);
    assert text[0..] == text;
    ScanRunKeeps(rows, t, 2, text + [NUL], 0, -1);
    assert t'.posns[2 + 29] == Active(29, B, 29) && StateOk(rows, t', 31);
    StepNul(rows, 29, B, t'.posns[31]);
    LookDies(rows, t', 31, NUL);
  }

  /** The first b flushes the table and leaves state 2 looping on b; the second stays there. */
  lemma Loops(rows: seq<Row>, t: Table)
    requires RowsAre(rows, 29, B) && Ripe(rows, t)
    ensures var r := ScanRun(rows, t, 2, [B, B, NUL], 0, -1); r.1 == -1 && r.0.reset && r.0.curstat == 2
  {
    StepStart(rows, 29, B);
    forall i | 1 <= i <= t.curstat ensures t.posns[i] != {31} {
      if i > 1 { assert t.posns[2 + (i - 2)] == Active(29, B, i - 2) && 31 !in Active(29, B, i - 2); }
    }
    assert t.posns[2 + 0] == S0(29) && StateOk(rows, t, 2);
    LookFlushes(rows, t, 2, B, {31});
    var t1 := Look(rows, t, 2, B).0;
    assert Look(rows, t1, 2, B) == (t1, 2);
    StepNul(rows, 29, B, t1.posns[2]);
    LookDies(rows, t1, 2, NUL);
    assert [B, B, NUL][1..] == [B, NUL] && [B, NUL][1..] == [NUL];
    assert !t.out[2] && !t1.out[2];
    assert ScanRun(rows, t1, 2, [NUL], 2, -1) == (SetGoto(t1, 2, NUL, 1), -1);
    assert ScanRun(rows, t1, 2, [B, NUL], 1, -1) == ScanRun(rows, t1, 2, [NUL], 2, -1);
    assert ScanRun(rows, t, 2, [B, B, NUL], 0, -1) == ScanRun(rows, t1, 2, [B, NUL], 1, -1);
  }

  /** After a restart bb is not found behind its first letter either. */
  lemma RestNotFound(rows: seq<Row>, t: Table)
    requires RowsAre(rows, 29, B) && Starts(rows, S0(29)) && Ready(rows, S0(29), t) && Sound(rows, t)
    requires t.reset && t.curstat == 2 && t.posns[2] == S0(29)
    ensures !PRun(rows, t, 2, [B, B], 1, -1, false).1.found
  {
    var text := [B, B];
    assert text[1..] + [NUL] == [B, NUL] && text[2..] + [NUL] == [NUL];
    StepStart(rows, 29, B);
    ScanB(rows, 29, B, t, 2);
    var t1 := ScanRun(rows, t, 2, [B, NUL], 0, -1).0;
    CandidateTable(rows, S0(29), t, 2, text, 1, -1, t1, Restart(t1));
    ScanEnd(rows, 29, B, Restart(t1), 2, 0, -1);
    PRunNext(rows, t, 2, text, 1, -1, false, t1, -1, Restart(t1));
  }

  /** In a new automaton for a...a|bb with 29 letters, `pmatch` finds that run of letters, and
      then nothing in bb. */
  lemma PmatchCanBeWrong(rows: seq<Row>, t0: Table, t: Table)
    requires FreshTable(rows, 29, B, t0, t)
    ensures var t1 := PTop(rows, t, Repeat(A, 29), false).0; t1.initstat == 2 && !PTop(rows, t1, [B, B], false).1.found
    ensures MatchesAt(Expression(29, B), false, [B, B], 0, 2)
  {
    hide ScanRun, PRun, MakeInit, Sound, States;
    SettingRows(rows, 29, B);
    Ripens(rows, t0, t);
    var text := [B, B];
    var t1 := PTop(rows, t, Repeat(A, 29), false).0;
    assert text[0..] + [NUL] == [B, B, NUL];
    Loops(rows, t1);
    var t2 := ScanRun(rows, t1, 2, [B, B, NUL], 0, -1).0;
    CandidateTable(rows, S0(29), t1, 2, text, 0, -1, t2, Restart(t2));
    PRunNext(rows, t1, 2, text, 0, -1, false, t2, -1, Restart(t2));
    RestNotFound(rows, Restart(t2));
    ExpressionLang(29, B, [B, B]);
    assert text[0..2] == text;
  }

  // ----- Line 518: `pmatch` with a...a|^b.

  /** The next letter after 28 flushes the table. */
  lemma LetterFlushes(rows: seq<Row>, n: nat, t: Table)
    requires Setting(rows, n, HAT) && RowsAre(rows, n, HAT) && Filled(rows, n, HAT, t, 28)
    ensures !t.out[31]
    ensures var r := Look(rows, t, 31, A);
            && r.1 == 2 && r.0.curstat == 2 && r.0.reset && r.0.posns[2] == Active(n, HAT, 29) && r.0.posns[1] == {}
            && (r.0.out[2] <==> n == 29) && r.0.goto[2] == ZeroRow()
  {
    StepActive(rows, n, HAT, 28);
    FilledAway(rows, n, HAT, t, 28);
    assert t.posns[3 + 28] == Active(n, HAT, 28) && StateOk(rows, t, 31);
    LookFlushes(rows, t, 31, A, Active(n, HAT, 29));
  }

  /** A scan of 29 letters and `w` behind them. */
  lemma ScanLetters(rows: seq<Row>, n: nat, t: Table, w: seq<Symbol>) returns (t1: Table)
    requires Setting(rows, n, HAT) && RowsAre(rows, n, HAT) && Filled(rows, n, HAT, t, 0) && Bytes(w) && w != []
    ensures Shape(t1) && t1.reset && t1.curstat == 2 && t1.posns[2] == Active(n, HAT, 29) && t1.posns[1] == {}
    ensures (t1.out[2] <==> n == 29) && t1.goto[2] == ZeroRow()
    ensures Bytes(Repeat(A, 29) + w) && ScanRun(rows, t, 3, Repeat(A, 29) + w, 0, -1) == ScanRun(rows, t1, 2, w, 29, -1)
  {
    var t' := FillScan(rows, n, HAT, t, 0, 28, [A] + w);
    LetterFlushes(rows, n, t');
    t1 := Look(rows, t', 31, A).0;
    assert Repeat(A, 28) + ([A] + w) == Repeat(A, 29) + w;
    assert ([A] + w)[1..] == w;
  }

  /** 29 letters are not enough for 30: the scan ends in a restart, after a flush. */
  lemma FlushedRun(rows: seq<Row>, t: Table)
    requires Setting(rows, 30, HAT) && RowsAre(rows, 30, HAT) && Starts(rows, S0(30)) && HatState(rows, S0(30)) == 3
    requires Filled(rows, 30, HAT, t, 0) && Usable(rows, S0(30), t) && t.initstat == 3
    ensures var t1 := PTop(rows, t, Repeat(A, 29), false).0; Usable(rows, S0(30), t1) && t1.reset && t1.initstat == 2
  {
    var text := Repeat(A, 29);
    PTopKeeps(rows, S0(30), t, text, false);
    assert text[0..] == text;
    var t1 := ScanLetters(rows, 30, t, [NUL]);
    StepNul(rows, 30, HAT, t1.posns[2]);
    LookDies(rows, t1, 2, NUL);
    var t2 := ScanRun(rows, t, 3, text + [NUL], 0, -1).0;
    assert t2 == SetGoto(t1, 2, NUL, 1);
    CandidateTable(rows, S0(30), t, 3, text, 0, -1, t2, Restart(t2));
    PRunNext(rows, t, 3, text, 0, -1, false, t2, -1, Restart(t2));
    PRunTable(rows, S0(30), Restart(t2), 2, text, 1, -1, false, PRun(rows, Restart(t2), 2, text, 1, -1, false));
  }

  /** The empty text flushes nothing. */
  lemma QuietRun(rows: seq<Row>, t: Table)
    requires RowsAre(rows, 30, HAT) && Starts(rows, S0(30)) && Usable(rows, S0(30), t) && t.reset && t.initstat == 2
    ensures var t1 := PTop(rows, t, [], false).0;
            Usable(rows, S0(30), t1) && !t1.reset && t1.initstat == 2 && t1.curstat <= 4
  {
    hide MakeInit, Look, Step, RowsAre;
    var none: seq<Symbol> := [];
    PTopKeeps(rows, S0(30), t, none, false);
    HatStarts(rows, 30, HAT);
    StatesDeadOk(rows, t);
    var m := MakeInit(rows, t, true);
    MakeInitAnchored(rows, S0(30), t, m);
    assert none[0..] + [NUL] == [NUL];
    StepNul(rows, 30, HAT, m.posns[3]);
    LookGoes(rows, m, 3, NUL);
    ScanEnd(rows, 30, HAT, m, 3, 0, -1);
  }

  /** In a new automaton for a...a|^b with 30 letters, `pmatch` on 29 letters, then on the empty
      text and then on b finds nothing there; and never will, by `HatIsLost`. */
  lemma HatCanBeLost(rows: seq<Row>, t0: Table, t: Table)
    requires FreshTable(rows, 30, HAT, t0, t)
    ensures var t1 := PTop(rows, t, Repeat(A, 29), false).0;
            && SeesHat(rows, S0(30), t) && t1.reset && t1.initstat == 2 && HatState(rows, S0(30)) == 3
            && var t2 := PTop(rows, t1, [], false).0;
               !t2.reset && t2.initstat == 2 && !SeesHat(rows, S0(30), t2) && !PTop(rows, t2, [B], false).1.found
    ensures MatchesAt(Expression(30, HAT), true, [B], 0, 1)
  {
    hide PTop, MakeInit, RowsAre, Filled, Ready;
    SettingRows(rows, 30, HAT);
    FreshFilled(rows, 30, HAT, t0, t);
    FlushedRun(rows, t);
    var t1 := PTop(rows, t, Repeat(A, 29), false).0;
    QuietRun(rows, t1);
    BNotFound(rows, PTop(rows, t1, [], false).0);
    ExpressionLang(30, HAT, [HAT] + [B]);
    assert [HAT] + [B] == [HAT, B] && [B][0..1] == [B];
  }

  lemma BNotFound(rows: seq<Row>, t: Table)
    requires RowsAre(rows, 30, HAT) && Starts(rows, S0(30)) && Usable(rows, S0(30), t)
    requires !t.reset && t.initstat == 2 && t.curstat <= 4
    ensures !PTop(rows, t, [B], false).1.found
  {
    var text := [B];
    assert text[0..] + [NUL] == [B, NUL] && text[1..] + [NUL] == [NUL];
    StepStart(rows, 30, HAT);
    ScanB(rows, 30, HAT, t, 2);
    LookGoes(rows, t, 2, B);
    var t1 := ScanRun(rows, t, 2, [B, NUL], 0, -1).0;
    assert t1 == Look(rows, t, 2, B).0;
    CandidateTable(rows, S0(30), t, 2, text, 0, -1, t1, Restart(t1));
    ScanEnd(rows, 30, HAT, t1, 2, 0, -1);
    PRunNext(rows, t, 2, text, 0, -1, false, t1, -1, t1);
  }

  // ----- A flush between two searches of `gsub`.

  function LettersB(): seq<Symbol> {
    Repeat(A, 29) + [B]
  }

  /** The first search finds the letters and leaves a flush pending. */
  lemma FirstSearch(rows: seq<Row>, t: Table)
    requires Setting(rows, 29, HAT) && RowsAre(rows, 29, HAT) && Starts(rows, S0(29)) && HatState(rows, S0(29)) == 3
    requires Filled(rows, 29, HAT, t, 0) && Usable(rows, S0(29), t) && t.initstat == 3
    ensures var r := PTop(rows, t, LettersB(), false);
            Usable(rows, S0(29), r.0) && r.0.reset && r.1 == Answer(true, 0, 29)
  {
    var text := LettersB();
    PTopKeeps(rows, S0(29), t, text, false);
    assert text[0..] + [NUL] == Repeat(A, 29) + [B, NUL];
    var t1 := ScanLetters(rows, 29, t, [B, NUL]);
    StepNowhere(rows, t1.posns[2], B);
    LookDies(rows, t1, 2, B);
  }

  /** The second one takes `^` to match in front of the b. */
  lemma SecondSearch(rows: seq<Row>, t: Table)
    requires RowsAre(rows, 29, HAT) && Starts(rows, S0(29)) && Usable(rows, S0(29), t) && t.reset
    ensures PTop(rows, t, [B], false).1 == Answer(true, 0, 1)
  {
    hide MakeInit, Look, ScanRun, Step;
    HatStarts(rows, 29, HAT);
    StatesDeadOk(rows, t);
    var m := MakeInit(rows, t, true);
    MakeInitAnchored(rows, S0(29), t, m);
    StepStart(rows, 29, HAT);
    ScanB(rows, 29, HAT, m, 3);
    assert [B][0..] + [NUL] == [B, NUL];
  }

  lemma GsubTwice(rows: seq<Row>, t: Table, f: Filler)
    requires Setting(rows, 29, HAT) && RowsAre(rows, 29, HAT) && Starts(rows, S0(29)) && HatState(rows, S0(29)) == 3
    requires Filled(rows, 29, HAT, t, 0) && Usable(rows, S0(29), t) && t.initstat == 3
    ensures GsubTop(rows, t, LettersB(), f).num == 2
  {
    var text := LettersB();
    var search := Pmatcher(rows, text);
    PmatcherFits(rows, text);
    assert text[0..] == text && text[29..] == [B];
    FirstSearch(rows, t);
    var (t1, a) := PTop(rows, t, text, false);
    assert search(t, 0) == (t1, a);
    var t2 := t1.(initstat := 2);
    UsableAgain(rows, S0(29), t1, 2);
    SecondSearch(rows, t2);
    assert search(t2, 29).1 == Answer(true, 0, 1);
    assert NextStart(text, 0, a) == (29, true);
    assert NextStart(text, 29, Answer(true, 0, 1)) == (30, false);
  }

  lemma WordOfPair(hat: bool, w: seq<Symbol>)
    ensures MatchesWord(Expression(29, HAT), hat, w) <==> w == Repeat(A, 29) || w == [HAT, B] || (hat && w == [B])
  {
    ExpressionLang(29, HAT, w);
    ExpressionLang(29, HAT, [HAT] + w);
    assert ([HAT] + w)[0] == HAT && ([HAT] + w)[1..] == w && [HAT, B][1..] == [B] && [HAT] + [B] == [HAT, B];
    assert Repeat(A, 29)[0] == A;
  }

  /** The matches of a...a|^b in that text: the letters in front. */
  lemma OnlyLetters(i: nat, m: int)
    ensures MatchesAt(Expression(29, HAT), true, LettersB(), i, m) <==> i == 0 && m == 29
  {
    hide MatchesWord;
    var text := LettersB();
    if 0 <= m && i + m <= 30 {
      var w := text[i..i + m];
      WordOfPair(i == 0, w);
      WordOfPair(i == 0, w + [NUL]);
      assert (w + [NUL])[m] == NUL;
      assert i + m == 30 && m > 0 ==> w[m - 1] == B;
      assert i == 0 && m > 0 ==> w[0] == A;
      assert m > 0 ==> w[0] != HAT;
      assert i == 0 && m == 29 ==> w == Repeat(A, 29);
      assert w == Repeat(A, 29) ==> m == 29;
    }
  }

  lemma WalkOnce(f: Filler)
    ensures Rewritten(Lengths(Expression(29, HAT), true, LettersB()), LettersB(), f, 0, false).1 == 1
  {
    var text, p := LettersB(), Expression(29, HAT);
    var lens := Lengths(p, true, text);
    forall i: nat, m: int ensures MatchesAt(p, true, text, i, m) <==> i == 0 && m == 29 { OnlyLetters(i, m); }
    LengthIs(p, true, text, 0, 29);
    assert lens[29] == -1 && lens[30] == -1;
    assert Rewritten(lens, text, f, 31, false).1 == 0;
    assert Rewritten(lens, text, f, 29, true).1 == 0;
  }

  /** In a new automaton for a...a|^b with 29 letters, `gsub` replaces the letters in a...ab, and
      then the b, which is not at the beginning of the text. */
  lemma GsubCanBeWrong(rows: seq<Row>, t0: Table, t: Table, f: Filler)
    requires FreshTable(rows, 29, HAT, t0, t)
    ensures SeesHat(rows, S0(29), t) && GsubTop(rows, t, LettersB(), f).num == 2
    ensures Rewritten(Lengths(Expression(29, HAT), true, LettersB()), LettersB(), f, 0, false).1 == 1
  {
    FreshFilled(rows, 29, HAT, t0, t);
    GsubTwice(rows, t, f);
    WalkOnce(f);
  }
}
