/** Exactly when line 825 of awk/b.c misleads a search: state 2 reads again the symbol on which the
    last flush has made it. */
module RegexLoop {
  import opened RegexTree
  import opened RegexAutomaton
  import opened RegexStart
  import opened RegexTable
  import opened RegexRun
  import opened RegexMatch
  import opened RegexScan

  /** The symbol on which state 2 wrongly leads to itself, since the last flush. */
  datatype Loop = NoLoop | On(c: Symbol)

  /** Does a step flush the table? */
  predicate Flushes(rows: seq<Row>, t: Table, s: nat, c: Symbol)
    requires Shape(t) && s < NSTATES && c < NCHARS
  {
    t.goto[s][c] == 0 && IsFull(t) && FindState(t, Next(rows, t, s, c), 1) == 0
  }

  /** A flush leaves a loop if it happens in state 2 and the new state is not its own successor
      on the symbol; any other flush removes it. */
  function LoopAfter(rows: seq<Row>, t: Table, s: nat, c: Symbol, loop: Loop): Loop
    requires Shape(t) && s < NSTATES && c < NCHARS
  {
    var p := Next(rows, t, s, c);
    if !Flushes(rows, t, s, c) then loop
    else if s == 2 && Step(rows, p, c) != p then On(c)
    else NoLoop
  }

  predicate InLoop(loop: Loop, s: nat, c: Symbol) {
    s == 2 && loop == On(c)
  }

  /** Every entry but that of the loop is right. */
  ghost predicate RightBut(rows: seq<Row>, t: Table, loop: Loop)
    requires Shape(t)
  {
    forall s: nat, c: nat :: Live(t, s) && c < HAT && !InLoop(loop, s, c) ==> EntryOk(rows, t, s, c)
  }

  ghost predicate SoundBut(rows: seq<Row>, t: Table, loop: Loop) {
    && States(rows, t) && RightBut(rows, t, loop)
    && (loop.On? ==> loop.c < HAT && Misleads(rows, t, 2, loop.c))
  }

  lemma SetGotoBut(rows: seq<Row>, t: Table, s: nat, c: Symbol, n: nat, loop: Loop)
    requires SoundBut(rows, t, loop) && Live(t, s) && Live(t, n) && c < HAT && t.goto[s][c] == 0
    requires t.posns[n] == Next(rows, t, s, c)
    ensures SoundBut(rows, SetGoto(t, s, c, n), loop)
  {
    var t' := SetGoto(t, s, c, n);
    SetGotoKeepsStates(rows, t, s, c, n);
    forall s': nat, c': nat | Live(t', s') && c' < HAT && !InLoop(loop, s', c') ensures EntryOk(rows, t', s', c') {
      if s' != s || c' != c { assert EntryOk(rows, t, s', c'); }
    }
  }

  lemma AddStateBut(rows: seq<Row>, t: Table, p: set<nat>, loop: Loop)
    requires |rows| > 0 && SoundBut(rows, t, loop) && !IsFull(t)
    requires forall s: nat :: Live(t, s) ==> t.posns[s] != p
    ensures SoundBut(rows, AddState(rows, t, p), loop)
  {
    AddStateKeepsStates(rows, t, p);
    var t' := AddState(rows, t, p);
    forall s: nat, c: nat | Live(t', s) && c < HAT && !InLoop(loop, s, c) ensures EntryOk(rows, t', s, c) {
      if s != t'.curstat { assert EntryOk(rows, t, s, c); }
    }
    if loop.On? { assert EntryLive(t, 2, loop.c); }
  }

  /** After a flush only states 1 and 2 are left, and state 2 has at most the entry just written. */
  lemma FlushBut(rows: seq<Row>, t: Table, s: nat, c: Symbol, loop: Loop)
    requires |rows| > 0 && SoundBut(rows, t, loop) && Live(t, s) && c < HAT && Flushes(rows, t, s, c)
    ensures SoundBut(rows, CGoto(rows, t, s, c).0, LoopAfter(rows, t, s, c, loop)) && CGoto(rows, t, s, c).1 == 2
  {
    var p := Next(rows, t, s, c);
    CGotoReturnsNext(rows, t, s, c);
    if s == 1 { DeadStateNext(rows, t, c); }
    var t' := CGoto(rows, t, s, c).0;
    forall s': nat, c': nat | Live(t', s') && c' < HAT && !InLoop(LoopAfter(rows, t, s, c, loop), s', c')
      ensures EntryOk(rows, t', s', c')
    {
      if s' == 1 { assert EntryOk(rows, t', 1, c'); }
    }
  }

  /** A step misleads exactly in the loop, and keeps everything else right. */
  lemma LookBut(rows: seq<Row>, t: Table, s: nat, c: Symbol, loop: Loop)
    requires |rows| > 0 && SoundBut(rows, t, loop) && Live(t, s) && c < HAT
    ensures Misleads(rows, t, s, c) <==> InLoop(loop, s, c)
    ensures var r := Look(rows, t, s, c); SoundBut(rows, r.0, LoopAfter(rows, t, s, c, loop)) && Live(r.0, r.1)
  {
    if !InLoop(loop, s, c) { assert EntryOk(rows, t, s, c); }
    assert EntryLive(t, s, c);
    if t.goto[s][c] == 0 {
      var p := Next(rows, t, s, c);
      var i := FindState(t, p, 1);
      CGotoReturnsNext(rows, t, s, c);
      if i != 0 {
        SetGotoBut(rows, t, s, c, i, loop);
      } else if IsFull(t) {
        FlushBut(rows, t, s, c, loop);
      } else {
        AddStateBut(rows, t, p, loop);
        var t' := AddState(rows, t, p);
        assert t'.posns[s] == t.posns[s];
        SetGotoBut(rows, t', s, c, t'.curstat, loop);
      }
    }
  }

  lemma SoundIsSoundBut(rows: seq<Row>, t: Table)
    requires Sound(rows, t)
    ensures SoundBut(rows, t, NoLoop)
  {
  }

  // ----- match

  /** State 2 reads again the symbol of the loop that the last flush has left. */
  predicate MatchLoops(rows: seq<Row>, t: Table, s: nat, w: seq<Symbol>, loop: Loop)
    requires Shape(t) && s < NSTATES && Bytes(w)
    decreases w
  {
    && !t.out[s] && w != []
    && (InLoop(loop, s, w[0]) ||
        var (t', s') := Look(rows, t, s, w[0]); MatchLoops(rows, t', s', w[1..], LoopAfter(rows, t, s, w[0], loop)))
  }

  lemma {:induction false} MatchLoopsIff(rows: seq<Row>, t: Table, s: nat, w: seq<Symbol>, loop: Loop)
    requires |rows| > 0 && SoundBut(rows, t, loop) && Live(t, s) && Bytes(w)
    ensures MatchClean(rows, t, s, w) <==> !MatchLoops(rows, t, s, w, loop)
    decreases w
  {
    hide RightBut, Look, LoopAfter, Misleads;
    if !t.out[s] && w != [] {
      LookBut(rows, t, s, w[0], loop);
      var (t', s') := Look(rows, t, s, w[0]);
      if !InLoop(loop, s, w[0]) { MatchLoopsIff(rows, t', s', w[1..], LoopAfter(rows, t, s, w[0], loop)); }
    }
  }

  /** MAIN: a call of `match` visits true states only exactly if state 2 does not read again the
      symbol on which the last flush of the call has made it, being no successor of itself. */
  lemma MatchTopLoopsIff(rows: seq<Row>, s: set<nat>, t: Table, text: seq<Symbol>)
    requires Starts(rows, s) && Searchable(rows, s, t) && IsText(text)
    ensures var t1 := if t.reset then MakeInit(rows, t, false) else t;
            var q := if t.reset then t1.curstat else t.initstat;
            MatchTopClean(rows, t, text) <==> !MatchLoops(rows, t1, q, text + [NUL], NoLoop)
  {
    MatchStart(rows, s, t);
    var t1 := if t.reset then MakeInit(rows, t, false) else t;
    SoundIsSoundBut(rows, t1);
    MatchLoopsIff(rows, t1, if t.reset then t1.curstat else t.initstat, text + [NUL], NoLoop);
  }

  // ----- pmatch and nematch

  predicate ScanLoops(rows: seq<Row>, t: Table, s: nat, w: seq<Symbol>, loop: Loop)
    requires Shape(t) && s < NSTATES && Bytes(w)
    decreases w
  {
    && w != []
    && (InLoop(loop, s, w[0]) ||
        var (t', s') := Look(rows, t, s, w[0]);
        s' != 1 && ScanLoops(rows, t', s', w[1..], LoopAfter(rows, t, s, w[0], loop)))
  }

  lemma {:induction false} ScanLoopsIff(rows: seq<Row>, t: Table, s: nat, w: seq<Symbol>, loop: Loop)
    requires |rows| > 0 && SoundBut(rows, t, loop) && Live(t, s) && Bytes(w)
    ensures ScanClean(rows, t, s, w) <==> !ScanLoops(rows, t, s, w, loop)
    decreases w
  {
    hide RightBut, Look, LoopAfter, Misleads;
    if w != [] {
      LookBut(rows, t, s, w[0], loop);
      var (t', s') := Look(rows, t, s, w[0]);
      if !InLoop(loop, s, w[0]) && s' != 1 {
        ScanLoopsIff(rows, t', s', w[1..], LoopAfter(rows, t, s, w[0], loop));
      }
    }
  }

  /** In the scan of some start; every scan begins without a loop. */
  predicate PLoops(rows: seq<Row>, t: Table, s: nat, text: seq<Symbol>, i: nat, patlen: int, nonEmpty: bool)
    requires Shape(t) && s < NSTATES && IsText(text) && i <= |text|
    decreases |text| - i
  {
    || ScanLoops(rows, t, s, text[i..] + [NUL], NoLoop)
    || (var (t1, len) := ScanRun(rows, t, s, text[i..] + [NUL], 0, patlen);
        && len < Least(nonEmpty) && i != |text| && !(nonEmpty && i + 1 == |text|)
        && PLoops(rows, Restart(t1), 2, text, i + 1, len, nonEmpty))
  }

  lemma {:induction false} PLoopsIff(rows: seq<Row>, s0: set<nat>, t: Table, s: nat, text: seq<Symbol>, i: nat,
                                     patlen: int, nonEmpty: bool)
    requires Starts(rows, s0) && Ready(rows, s0, t) && Sound(rows, t) && Live(t, s) && IsText(text) && i <= |text|
    ensures PClean(rows, t, s, text, i, patlen, nonEmpty) <==> !PLoops(rows, t, s, text, i, patlen, nonEmpty)
    decreases |text| - i
  {
    hide ScanClean, ScanLoops, ScanRun, Restart;
    SoundIsSoundBut(rows, t);
    ScanLoopsIff(rows, t, s, text[i..] + [NUL], NoLoop);
    var (t1, len) := ScanRun(rows, t, s, text[i..] + [NUL], 0, patlen);
    CandidateTable(rows, s0, t, s, text, i, patlen, t1, Restart(t1));
    if len < Least(nonEmpty) && i != |text| && !(nonEmpty && i + 1 == |text|) {
      PLoopsIff(rows, s0, Restart(t1), 2, text, i + 1, len, nonEmpty);
    }
  }

  /** MAIN: the same for `pmatch` and `nematch`, scan by scan. */
  lemma PTopLoopsIff(rows: seq<Row>, s0: set<nat>, t: Table, text: seq<Symbol>, nonEmpty: bool)
    requires Starts(rows, s0) && Usable(rows, s0, t) && IsText(text) && !(nonEmpty && text == [])
    ensures var t1 := if t.reset then MakeInit(rows, t, true) else t;
            var s := if t.reset then t1.curstat else t.initstat;
            PTopClean(rows, t, text, nonEmpty) <==> !PLoops(rows, t1, s, text, 0, -1, nonEmpty)
  {
    PStart(rows, s0, t);
    var t1 := if t.reset then MakeInit(rows, t, true) else t;
    PLoopsIff(rows, s0, t1, if t.reset then t1.curstat else t.initstat, text, 0, -1, nonEmpty);
  }
}
