/** Why the theorem about `match` needs its side condition: an expression and two texts on
    which a table that was flushed in the middle of a call gives a wrong answer. */
module RegexStale {
  import opened RegexTree
  import opened RegexAutomaton
  import opened RegexStart
  import opened RegexTable
  import opened RegexRun
  import opened RegexMatch
  import opened RegexBuild
  import opened RegexFamily

  // ----- The first text fills the table.

  /** Positions active after `j` letters a. */
  function After(j: nat): (p: set<nat>)
    ensures forall x :: x in p <==> x == 0 || x == 31 || 1 <= x <= j + 1
  {
    if j == 0 then {0, 1, 31} else After(j - 1) + {j + 1}
  }

  lemma StepA(rows: seq<Row>, j: nat)
    requires RowsAre(rows, 30, B) && j <= 28
    ensures Step(rows, After(j), A) == After(j + 1)
  {
    forall x: nat ensures x in Step(rows, After(j), A) <==> x in After(j + 1) {
      StepHas(rows, After(j), A, 34, x);
      StepAReaches(rows, j, x);
    }
  }

  lemma StepAReaches(rows: seq<Row>, j: nat, x: nat)
    requires RowsAre(rows, 30, B) && j <= 28
    ensures x in After(j + 1)
            <==> exists i :: 0 <= i < 34 && i in After(j) && Matches(rows[i].leaf, A) && x in rows[i].follow
  {
    if x in After(j + 1) {
      var i := if x <= 1 || x == 31 then 0 else x - 1;
      assert i in After(j) && Matches(rows[i].leaf, A) && x in Members(rows[i].follow);
    }
    if i :| 0 <= i < 34 && i in After(j) && Matches(rows[i].leaf, A) && x in rows[i].follow {
      assert x in Members(rows[i].follow);
    }
  }

  /** After `j` letters the table has the states of 0, 1, ..., j letters, and no others. */
  ghost predicate Filled(rows: seq<Row>, t: Table, j: nat) {
    && Sound(rows, t) && !t.reset && t.initstat == 2 && j <= 29
    && t.curstat == 2 + j
    && (forall i :: 0 <= i <= j ==> t.posns[2 + i] == After(i))
    && t.goto[2 + j][A] == 0 && t.goto[2][B] == 0
    && !t.out[2 + j]
  }

  lemma FillStep(rows: seq<Row>, t: Table, j: nat)
    requires RowsAre(rows, 30, B) && Filled(rows, t, j) && j < 29
    ensures var r := Look(rows, t, 2 + j, A); Filled(rows, r.0, j + 1) && r.1 == 3 + j
  {
    StepA(rows, j);
    assert j + 2 in After(j + 1);
    forall i | 1 <= i <= t.curstat ensures t.posns[i] != After(j + 1) {
      if i > 1 { assert t.posns[2 + (i - 2)] == After(i - 2); assert j + 2 !in After(i - 2); }
    }
    assert FindState(t, After(j + 1), 1) == 0;
    assert !IsFull(t);
    CGotoSoundIff(rows, t, 2 + j, A);
    assert 33 !in After(j + 1);
  }

  /** The table after the first text: full, state 2 the plain start, nothing known on b. */
  ghost predicate Full(rows: seq<Row>, t: Table) {
    && Sound(rows, t) && !t.reset && t.initstat == 2
    && t.curstat == 31
    && (forall i :: 0 <= i <= 29 ==> t.posns[2 + i] == After(i))
    && t.goto[2][B] == 0
  }

  /** The rest of the first text fills the table. */
  lemma {:induction false} FillRun(rows: seq<Row>, t: Table, j: nat)
    requires RowsAre(rows, 30, B) && Filled(rows, t, j)
    ensures Full(rows, MatchRun(rows, t, 2 + j, Repeat(A, 29 - j) + [NUL]).0)
    decreases 29 - j
  {
    var w := Repeat(A, 29 - j) + [NUL];
    if j < 29 {
      FillStep(rows, t, j);
      assert w[1..] == Repeat(A, 29 - (j + 1)) + [NUL];
      FillRun(rows, Look(rows, t, 2 + j, A).0, j + 1);
    } else {
      assert w == [NUL];
      StepNul(rows, 30, B, t.posns[31]);
      LookSound(rows, t, 31, NUL);
    }
  }

  lemma StepB(rows: seq<Row>)
    requires RowsAre(rows, 30, B)
    ensures Step(rows, After(0), B) == {0, 1, 31, 32}
  {
    forall x: nat ensures x in Step(rows, After(0), B) <==> x in {0, 1, 31, 32} {
      StepHas(rows, After(0), B, 34, x);
      if x in {0, 1, 31} { assert x in Members(rows[0].follow); }
      if x == 32 { assert x in Members(rows[31].follow); }
      if x in Step(rows, After(0), B) {
        var i :| 0 <= i < 34 && i in After(0) && Matches(rows[i].leaf, B) && x in rows[i].follow;
        assert x in Members(rows[i].follow);
      }
    }
  }

  /** The first b flushes the full table and leaves state 2 looping on b. */
  lemma FlushOnB(rows: seq<Row>, t: Table)
    requires RowsAre(rows, 30, B) && Full(rows, t)
    ensures var r := Look(rows, t, 2, B);
            r.1 == 2 && r.0.goto[2][B] == 2 && r.0.goto[2][NUL] == 0 && r.0.curstat == 2 && r.0.posns[1] == {} &&
              !r.0.out[2] && !r.0.out[1]
  {
    StepB(rows);
    var q := Next(rows, t, 2, B);
    assert t.posns[2 + 0] == After(0);
    forall i | 1 <= i <= t.curstat ensures t.posns[i] != q {
      if i > 1 { assert t.posns[2 + (i - 2)] == After(i - 2); assert 32 !in After(i - 2); assert 32 in q; }
    }
    assert StateOk(rows, t, 1);
  }

  lemma MatchRunStep(rows: seq<Row>, t: Table, s: nat, c: Symbol, w: seq<Symbol>)
    requires Shape(t) && s < NSTATES && Bytes([c] + w) && c < HAT && Bytes(w) && !t.out[s]
    ensures MatchRun(rows, t, s, [c] + w) == MatchRun(rows, Look(rows, t, s, c).0, Look(rows, t, s, c).1, w)
  {
    assert ([c] + w)[1..] == w;
  }

  /** On a full table the text bb is not found. */
  lemma BbNotFound(rows: seq<Row>, t: Table)
    requires RowsAre(rows, 30, B) && Full(rows, t)
    ensures !MatchRun(rows, t, 2, [B, B, NUL]).1
  {
    assert StateOk(rows, t, 2) && t.posns[2 + 0] == After(0);
    FlushOnB(rows, t);
    var t1 := Look(rows, t, 2, B).0;
    StepNul(rows, 30, B, t1.posns[2]);
    assert [B] + [B, NUL] == [B, B, NUL] && [B] + [NUL] == [B, NUL] && [NUL] + [] == [NUL];
    assert Look(rows, t1, 2, NUL) == (SetGoto(t1, 2, NUL, 1), 1);
    MatchRunStep(rows, t, 2, B, [B, NUL]);
    MatchRunStep(rows, t1, 2, B, [NUL]);
    MatchRunStep(rows, t1, 2, NUL, []);
  }

  /** In a fresh automaton for a...a|bb, `match` on 29 letters a and then on bb answers
      no, although the text bb is a word of the expression. */
  lemma MatchCanBeWrong(rows: seq<Row>, t0: Table, t: Table)
    requires Automaton(rows, Expression(30, B)) && |rows| == 34 && Shape(t0) && DeadOk(t0)
    requires t == MakeInit(rows, t0, false).(initstat := 2)
    ensures var t1 := MatchTop(rows, t, Repeat(A, 29)).0;
            t1.initstat == 2 && !MatchTop(rows, t1, [B, B]).1
    ensures Contains(Expression(30, B), [B, B])
  {
    ExpressionRows(rows, 30, B);
    FirstCall(rows, t0);
    assert Repeat(A, 29 - 0) == Repeat(A, 29);
    FillRun(rows, t, 0);
    var t1 := MatchTop(rows, t, Repeat(A, 29)).0;
    assert Full(rows, t1);
    BbNotFound(rows, t1);
    assert [B, B] + [NUL] == [B, B, NUL];
    BbContained();
  }

  lemma FirstCall(rows: seq<Row>, t0: Table)
    requires Automaton(rows, Expression(30, B)) && |rows| == 34 && RowsAre(rows, 30, B) && Shape(t0) && DeadOk(t0)
    ensures Filled(rows, MakeInit(rows, t0, false).(initstat := 2), 0)
  {
    AutomatonStarts(rows, Expression(30, B));
    StartOfExpression(30, B);
    var s := {1, 31};
    forall x: nat ensures x !in Step(rows, s, HAT) { StepHas(rows, s, HAT, 34, x); }
    assert AfterHat(rows, s) == s;
    var t := MakeInit(rows, t0, false);
    MakeInitFloating(rows, s, t0, t);
    SoundIgnoresInitstat(rows, t, 2);
    assert StateOk(rows, t, 2);
    assert {0} + s == After(0);
  }

  lemma BbContained()
    ensures Contains(Expression(30, B), [B, B])
  {
    assert Framed([B, B])[1..3] == [B, B];
    ExpressionLang(30, B, [B, B]);
  }
}
