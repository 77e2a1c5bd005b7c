/** The matching loops of awk/b.c as runs over the table, and the theorems that tie their
    answers to the language of the expression. */
module RegexMatch {
  import opened RegexTree
  import opened RegexAutomaton
  import opened RegexStart
  import opened RegexTable
  import opened RegexRun

  /** The symbols a matching loop reads: no HAT, and NUL at most at the end. */
  predicate Bytes(w: seq<Symbol>) {
    forall i :: 0 <= i < |w| ==> w[i] < HAT
  }

  /** What every step of a run leaves alone: the saved start, and, until a flush, the states
      that `makeinit` made. */
  predicate Kept(t: Table, t': Table)
    requires Shape(t) && Shape(t')
  {
    && t'.posns[0] == t.posns[0] && t'.out[0] == t.out[0] && t'.initstat == t.initstat
    && (t.reset ==> t'.reset)
    && (!t'.reset ==>
          t.curstat <= t'.curstat && t'.posns[2] == t.posns[2] && (t.curstat > 2 ==> t'.posns[3] == t.posns[3]))
  }

  /** Consistent states; entries may be wrong only while a flush is pending. */
  ghost predicate Honest(rows: seq<Row>, t: Table) {
    States(rows, t) && (t.reset || Sound(rows, t))
  }

  /** A step keeps a table honest, even one that writes a stale entry. */
  lemma LookKeeps(rows: seq<Row>, t: Table, s: nat, c: Symbol)
    requires |rows| > 0 && Honest(rows, t) && Live(t, s) && c < HAT
    ensures var r := Look(rows, t, s, c); Honest(rows, r.0) && Live(r.0, r.1) && Kept(t, r.0)
  {
    assert EntryLive(t, s, c);
    if t.goto[s][c] == 0 {
      CGotoReturnsNext(rows, t, s, c);
      if !t.reset { CGotoSoundIff(rows, t, s, c); }
    }
  }

  /** The entry that is there leads to a state with the wrong positions. */
  predicate Misleads(rows: seq<Row>, t: Table, s: nat, c: Symbol)
    requires Shape(t) && s < NSTATES && c < NCHARS
  {
    t.goto[s][c] != 0 && t.posns[t.goto[s][c]] != Next(rows, t, s, c)
  }

  /** A step leads to the true successor exactly if it does not follow such an entry. */
  lemma LookRightIff(rows: seq<Row>, t: Table, s: nat, c: Symbol)
    requires |rows| > 0 && Honest(rows, t) && Live(t, s) && c < HAT
    ensures var r := Look(rows, t, s, c);
            Honest(rows, r.0) && Live(r.0, r.1) &&
              (r.0.posns[r.1] == Step(rows, t.posns[s], c) <==> !Misleads(rows, t, s, c))
  {
    LookKeeps(rows, t, s, c);
    if t.goto[s][c] == 0 { CGotoReturnsNext(rows, t, s, c); }
  }

  /** A sound table misleads nobody, and a step that writes no stale entry keeps it sound. */
  lemma LookSound(rows: seq<Row>, t: Table, s: nat, c: Symbol)
    requires |rows| > 0 && Sound(rows, t) && Live(t, s) && c < HAT
    ensures !Misleads(rows, t, s, c)
    ensures t.goto[s][c] != 0 || !Stale(rows, t, s, c) ==> Sound(rows, Look(rows, t, s, c).0)
  {
    assert EntryOk(rows, t, s, c);
    if t.goto[s][c] == 0 { CGotoSoundIff(rows, t, s, c); }
  }

  // ----- match

  /** The run of `match` from state `s` over the remaining symbols: stop at the first
      accepting state. */
  function MatchRun(rows: seq<Row>, t: Table, s: nat, w: seq<Symbol>): (r: (Table, bool))
    requires Shape(t) && s < NSTATES && Bytes(w)
    ensures Shape(r.0)
    decreases w
  {
    if t.out[s] then (t, true)
    else if w == [] then (t, false)
    else var (t', s') := Look(rows, t, s, w[0]); MatchRun(rows, t', s', w[1..])
  }

  /** No step of the run follows a wrong entry. */
  predicate MatchClean(rows: seq<Row>, t: Table, s: nat, w: seq<Symbol>)
    requires Shape(t) && s < NSTATES && Bytes(w)
    decreases w
  {
    t.out[s] || w == [] ||
    (!Misleads(rows, t, s, w[0]) &&
     var (t', s') := Look(rows, t, s, w[0]); MatchClean(rows, t', s', w[1..]))
  }

  /** Every state that the run visits has the positions that the automaton has there. */
  predicate MatchTrue(rows: seq<Row>, t: Table, s: nat, p: set<nat>, w: seq<Symbol>)
    requires Shape(t) && s < NSTATES && Bytes(w)
    decreases w
  {
    && t.posns[s] == p
    && (t.out[s] || w == [] ||
        var (t', s') := Look(rows, t, s, w[0]); MatchTrue(rows, t', s', Step(rows, p, w[0]), w[1..]))
  }

  /** MAIN: the two are the same. */
  lemma {:induction false} MatchTrueIff(rows: seq<Row>, t: Table, s: nat, w: seq<Symbol>)
    requires |rows| > 0 && Honest(rows, t) && Live(t, s) && Bytes(w)
    ensures MatchTrue(rows, t, s, t.posns[s], w) <==> MatchClean(rows, t, s, w)
    decreases w
  {
    if !t.out[s] && w != [] {
      LookRightIff(rows, t, s, w[0]);
      var (t', s') := Look(rows, t, s, w[0]);
      MatchTrueIff(rows, t', s', w[1..]);
    }
  }

  /** The run writes no stale entry. */
  predicate WritesNoStale(rows: seq<Row>, t: Table, s: nat, w: seq<Symbol>)
    requires Shape(t) && s < NSTATES && Bytes(w)
    decreases w
  {
    t.out[s] || w == [] ||
    ((t.goto[s][w[0]] != 0 || !Stale(rows, t, s, w[0])) &&
     var (t', s') := Look(rows, t, s, w[0]); WritesNoStale(rows, t', s', w[1..]))
  }

  /** From a sound table a run is misled only by a stale entry that it has written itself. */
  lemma {:induction false} MatchCleanIfNoStale(rows: seq<Row>, t: Table, s: nat, w: seq<Symbol>)
    requires |rows| > 0 && Sound(rows, t) && Live(t, s) && Bytes(w) && WritesNoStale(rows, t, s, w)
    ensures MatchClean(rows, t, s, w)
    decreases w
  {
    if !t.out[s] && w != [] {
      LookSound(rows, t, s, w[0]);
      LookKeeps(rows, t, s, w[0]);
      var (t', s') := Look(rows, t, s, w[0]);
      MatchCleanIfNoStale(rows, t', s', w[1..]);
    }
  }

  /** Some prefix of `w` is accepted. */
  ghost predicate SomePrefix(rows: seq<Row>, p: set<nat>, w: seq<Symbol>) {
    exists j :: 0 <= j <= |w| && Accepts(rows, p, w[..j])
  }

  lemma SomePrefixStep(rows: seq<Row>, p: set<nat>, w: seq<Symbol>)
    requires w != [] && |rows| > 0
    ensures SomePrefix(rows, p, w) <==> |rows| - 1 in p || SomePrefix(rows, Step(rows, p, w[0]), w[1..])
  {
    assert w[..0] == [];
    forall j | 0 < j <= |w|
      ensures Accepts(rows, p, w[..j]) <==> Accepts(rows, Step(rows, p, w[0]), w[1..][..j - 1])
    {
      assert w[..j][0] == w[0] && w[..j][1..] == w[1..][..j - 1];
    }
    if SomePrefix(rows, Step(rows, p, w[0]), w[1..]) {
      var j :| 0 <= j <= |w[1..]| && Accepts(rows, Step(rows, p, w[0]), w[1..][..j]);
      assert Accepts(rows, p, w[..j + 1]);
    }
    if SomePrefix(rows, p, w) {
      var j :| 0 <= j <= |w| && Accepts(rows, p, w[..j]);
      if j > 0 { assert Accepts(rows, Step(rows, p, w[0]), w[1..][..j - 1]); }
    }
  }

  lemma {:induction false} MatchRunKeeps(rows: seq<Row>, t: Table, s: nat, w: seq<Symbol>)
    requires |rows| > 0 && Honest(rows, t) && Live(t, s) && Bytes(w)
    ensures Honest(rows, MatchRun(rows, t, s, w).0) && Kept(t, MatchRun(rows, t, s, w).0)
    decreases w
  {
    if !t.out[s] && w != [] {
      LookKeeps(rows, t, s, w[0]);
      var (t', s') := Look(rows, t, s, w[0]);
      MatchRunKeeps(rows, t', s', w[1..]);
    }
  }

  lemma {:induction false} MatchRunRight(rows: seq<Row>, t: Table, s: nat, w: seq<Symbol>)
    requires |rows| > 0 && Honest(rows, t) && Live(t, s) && Bytes(w) && MatchClean(rows, t, s, w)
    ensures MatchRun(rows, t, s, w).1 <==> SomePrefix(rows, t.posns[s], w)
    decreases w
  {
    assert StateOk(rows, t, s);
    if w == [] {
      assert w[..0] == [];
    } else {
      SomePrefixStep(rows, t.posns[s], w);
      if !t.out[s] {
        LookRightIff(rows, t, s, w[0]);
        var (t', s') := Look(rows, t, s, w[0]);
        MatchRunRight(rows, t', s', w[1..]);
      }
    }
  }

  /** The symbols that `^`, a text and `$` amount to. */
  function Framed(text: seq<Symbol>): seq<Symbol> {
    [HAT] + text + [NUL]
  }

  /** A text as awk holds it: bytes other than NUL. */
  predicate IsText(text: seq<Symbol>) {
    forall i :: 0 <= i < |text| ==> 0 < text[i] < HAT
  }

  /** Some substring of the framed text is a word of the expression. */
  ghost predicate Contains(p: Re, text: seq<Symbol>) {
    exists i, j :: 0 <= i <= j <= |Framed(text)| && Lang(p, Framed(text)[i..j])
  }

  /** Positions active after HAT with ALL in front, as `match` starts. */
  function FloatingStart(rows: seq<Row>, s: set<nat>): set<nat> {
    {0} + AfterHat(rows, s)
  }

  lemma AfterHatAccepts(rows: seq<Row>, p: Re, w: seq<Symbol>)
    requires Automaton(rows, p) && Text(w)
    ensures Accepts(rows, FloatingStart(rows, Start(p, |rows| - 1)), w) <==> Floats(p, [HAT] + w)
  {
    var s := Start(p, |rows| - 1);
    StepUnion(rows, {0}, s, HAT, |rows|);
    StepZero(rows, p, HAT);
    assert Step(rows, {0} + s, HAT) == FloatingStart(rows, s);
    assert ([HAT] + w)[0] == HAT && ([HAT] + w)[1..] == w;
    FloatingAccepts(rows, p, [HAT] + w);
  }

  ghost predicate MatchesWord(p: Re, hat: bool, w: seq<Symbol>) {
    Lang(p, w) || (hat && Lang(p, [HAT] + w))
  }

  /** From the start positions `s` the rows accept the words of `p`; with HAT possibly read
      before, also those that only lack a leading HAT; with ALL active, also those that
      end in such a word. */
  ghost predicate Recognises(rows: seq<Row>, s: set<nat>, p: Re) {
    && Starts(rows, s)
    && (forall w :: Text(w) ==> (Accepts(rows, s, w) <==> MatchesWord(p, false, w)))
    && (forall w :: Text(w) ==> (Accepts(rows, AfterHat(rows, s), w) <==> MatchesWord(p, true, w)))
    && (forall w :: Text(w) ==> (Accepts(rows, FloatingStart(rows, s), w) <==> Floats(p, [HAT] + w)))
  }

  /** The automaton of an expression recognises it. */
  lemma AutomatonRecognises(rows: seq<Row>, p: Re)
    requires Automaton(rows, p)
    ensures Recognises(rows, Start(p, |rows| - 1), p)
  {
    var s := Start(p, |rows| - 1);
    AutomatonStarts(rows, p);
    forall w | Text(w)
      ensures Accepts(rows, s, w) <==> MatchesWord(p, false, w)
      ensures Accepts(rows, AfterHat(rows, s), w) <==> MatchesWord(p, true, w)
      ensures Accepts(rows, FloatingStart(rows, s), w) <==> Floats(p, [HAT] + w)
    {
      StartAcceptsLanguage(rows, p, w);
      HatStartLanguage(rows, p, w);
      AfterHatAccepts(rows, p, w);
    }
  }

  /** A word of `p` ends at `m`, starting in front of the last symbol of `y`. */
  ghost predicate EndsAt(p: Re, y: seq<Symbol>, m: int) {
    0 < m <= |y| && exists i :: 0 <= i <= m && i < |y| && Lang(p, y[i..m])
  }

  /** In a word with its only NUL at the end, floating up to `m` is ending a substring there. */
  lemma FloatsIsEndsAt(p: Re, y: seq<Symbol>, m: nat)
    requires 0 < m <= |y| && y[|y| - 1] == NUL && forall x :: 0 <= x < |y| - 1 ==> y[x] != NUL
    ensures Floats(p, y[..m]) <==> EndsAt(p, y, m)
  {
    var v := y[..m];
    forall i | 0 <= i <= m
      ensures v[i..] == y[i..m]
      ensures NUL !in v[..i] <==> i < |y|
    {
      if i == |y| { assert v[..i][i - 1] == NUL; }
    }
  }

  /** Containing a word is having one that ends somewhere, an empty one in front counting too. */
  lemma ContainsIsEndsAt(p: Re, text: seq<Symbol>)
    ensures Contains(p, text) <==> exists m :: EndsAt(p, Framed(text), m)
  {
    var y := Framed(text);
    if Contains(p, text) {
      var i, j :| 0 <= i <= j <= |y| && Lang(p, y[i..j]);
      if i == j {
        assert y[1..1] == y[i..j];
        assert EndsAt(p, y, 1);
      } else {
        assert EndsAt(p, y, j);
      }
    }
    if m :| EndsAt(p, y, m) { var i :| 0 <= i <= m && i < |y| && Lang(p, y[i..m]); }
  }

  lemma AcceptsIsEndsAt(rows: seq<Row>, s: set<nat>, p: Re, text: seq<Symbol>, j: nat)
    requires Recognises(rows, s, p) && IsText(text) && j <= |text| + 1
    ensures Accepts(rows, FloatingStart(rows, s), (text + [NUL])[..j]) <==> EndsAt(p, Framed(text), j + 1)
  {
    var y, v := Framed(text), (text + [NUL])[..j];
    assert y[..j + 1] == [HAT] + v;
    assert Text(v);
    FloatsIsEndsAt(p, y, j + 1);
  }

  /** From the state after HAT, some prefix of text and NUL is accepted exactly when the
      framed text contains a word of the expression. */
  lemma PrefixIsContains(rows: seq<Row>, s: set<nat>, p: Re, text: seq<Symbol>)
    requires Recognises(rows, s, p) && IsText(text)
    ensures SomePrefix(rows, FloatingStart(rows, s), text + [NUL]) <==> Contains(p, text)
  {
    hide Recognises, Accepts, Contains, Lang;
    var q, w := FloatingStart(rows, s), text + [NUL];
    ContainsIsEndsAt(p, text);
    if SomePrefix(rows, q, w) {
      var j :| 0 <= j <= |w| && Accepts(rows, q, w[..j]);
      AcceptsIsEndsAt(rows, s, p, text, j);
      assert EndsAt(p, Framed(text), j + 1);
    }
    if m :| EndsAt(p, Framed(text), m) {
      AcceptsIsEndsAt(rows, s, p, text, m - 1);
      assert Accepts(rows, q, w[..m - 1]);
    }
  }

  // ----- The call.

  /** `match`: rebuild the table if it was flushed, then run. */
  function MatchTop(rows: seq<Row>, t: Table, text: seq<Symbol>): (r: (Table, bool))
    requires Shape(t) && t.initstat < NSTATES && IsText(text) && |rows| > 0
    ensures Shape(r.0)
  {
    var t1 := if t.reset then MakeInit(rows, t, false) else t;
    MatchRun(rows, t1, if t.reset then t1.curstat else t.initstat, text + [NUL])
  }

  /** No step of the call follows a wrong entry: a property of the table and the text. */
  predicate MatchTopClean(rows: seq<Row>, t: Table, text: seq<Symbol>)
    requires Shape(t) && t.initstat < NSTATES && IsText(text) && |rows| > 0
  {
    var t1 := if t.reset then MakeInit(rows, t, false) else t;
    MatchClean(rows, t1, if t.reset then t1.curstat else t.initstat, text + [NUL])
  }

  /** The table between calls of `match`. */
  ghost predicate Searchable(rows: seq<Row>, s: set<nat>, t: Table) {
    && States(rows, t)
    && t.initstat == HatState(rows, s)
    && (!t.reset ==> Sound(rows, t) && t.initstat <= t.curstat && t.posns[t.initstat] == FloatingStart(rows, s))
  }

  lemma MatchStart(rows: seq<Row>, s: set<nat>, t: Table)
    requires Starts(rows, s) && Searchable(rows, s, t)
    ensures var t1 := if t.reset then MakeInit(rows, t, false) else t;
            var q := if t.reset then t1.curstat else t.initstat;
            Sound(rows, t1) && Live(t1, q) && t1.posns[q] == FloatingStart(rows, s) &&
            q == t1.initstat == t.initstat && !t1.reset
  {
    StatesDeadOk(rows, t);
    if t.reset { MakeInitFloating(rows, s, t, MakeInit(rows, t, false)); }
  }

  /** Every call of `match` leaves a table that the next call can use, stale or not: a wrong
      entry exists only while a flush is pending, and then the table is rebuilt. */
  lemma MatchTopKeeps(rows: seq<Row>, s: set<nat>, t: Table, text: seq<Symbol>)
    requires Starts(rows, s) && Searchable(rows, s, t) && IsText(text)
    ensures Searchable(rows, s, MatchTop(rows, t, text).0)
  {
    MatchStart(rows, s, t);
    var t1 := if t.reset then MakeInit(rows, t, false) else t;
    MatchRunKeeps(rows, t1, if t.reset then t1.curstat else t.initstat, text + [NUL]);
  }

  /** MAIN: that is so exactly if every state that the call visits has the true positions. */
  lemma MatchTopTrueIff(rows: seq<Row>, s: set<nat>, t: Table, text: seq<Symbol>)
    requires Starts(rows, s) && Searchable(rows, s, t) && IsText(text)
    ensures var t1 := if t.reset then MakeInit(rows, t, false) else t;
            var q := if t.reset then t1.curstat else t.initstat;
            MatchTopClean(rows, t, text) <==> MatchTrue(rows, t1, q, FloatingStart(rows, s), text + [NUL])
  {
    MatchStart(rows, s, t);
    var t1 := if t.reset then MakeInit(rows, t, false) else t;
    MatchTrueIff(rows, t1, if t.reset then t1.curstat else t.initstat, text + [NUL]);
  }

  /** MAIN: then `match` succeeds exactly when `^` text `$` contains a word of the expression. */
  lemma MatchTopRight(rows: seq<Row>, s: set<nat>, p: Re, t: Table, text: seq<Symbol>)
    requires Recognises(rows, s, p) && Searchable(rows, s, t) && IsText(text) && MatchTopClean(rows, t, text)
    ensures MatchTop(rows, t, text).1 <==> Contains(p, text)
  {
    MatchStart(rows, s, t);
    var t1 := if t.reset then MakeInit(rows, t, false) else t;
    MatchRunRight(rows, t1, if t.reset then t1.curstat else t.initstat, text + [NUL]);
    PrefixIsContains(rows, s, p, text);
  }

  /** A call that cannot use up the states writes no stale entry: one new state a symbol. */
  lemma {:induction false} NoStaleIfShort(rows: seq<Row>, t: Table, s: nat, w: seq<Symbol>)
    requires |rows| > 0 && Honest(rows, t) && Live(t, s) && Bytes(w) && t.curstat + |w| < NSTATES
    ensures WritesNoStale(rows, t, s, w)
    decreases w
  {
    if !t.out[s] && w != [] {
      LookKeeps(rows, t, s, w[0]);
      var (t', s') := Look(rows, t, s, w[0]);
      NoStaleIfShort(rows, t', s', w[1..]);
    }
  }

  /** So a text shorter than the number of free states is always answered rightly. */
  lemma MatchRightIfShort(rows: seq<Row>, s: set<nat>, p: Re, t: Table, text: seq<Symbol>)
    requires Recognises(rows, s, p) && Searchable(rows, s, t) && IsText(text)
    requires (if t.reset then 3 else t.curstat) + |text| + 1 < NSTATES
    ensures MatchTop(rows, t, text).1 <==> Contains(p, text)
  {
    MatchStart(rows, s, t);
    StatesDeadOk(rows, t);
    if t.reset { MakeInitFloating(rows, s, t, MakeInit(rows, t, false)); }
    var t1 := if t.reset then MakeInit(rows, t, false) else t;
    NoStaleIfShort(rows, t1, t1.initstat, text + [NUL]);
    MatchCleanIfNoStale(rows, t1, t1.initstat, text + [NUL]);
    MatchTopRight(rows, s, p, t, text);
  }
}
