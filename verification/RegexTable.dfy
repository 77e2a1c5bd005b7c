/** The lazily filled transition table of an automaton as a value, and what one call of
    `cgoto` does to it, the flush at NSTATES states included. */
module RegexTable {
  import opened RegexTree
  import opened RegexAutomaton
  import opened RegexStart

  const NSTATES: nat := 32

  /** Position lists are taken as sets here: the program keeps them sorted, so that lists
      are equal exactly when the sets are (RegexMachine shows it). `posns[0]` keeps the start
      positions of an anchored automaton, state 1 is the dead state, state 2 the first live one.
      An entry 0 of `goto` means not computed yet. */
  datatype Table = Table(goto: seq<seq<nat>>, posns: seq<set<nat>>, out: seq<bool>,
                         initstat: nat, curstat: nat, reset: bool)

  predicate Shape(t: Table) {
    && |t.goto| == |t.posns| == |t.out| == NSTATES
    && (forall s :: 0 <= s < NSTATES ==> |t.goto[s]| == NCHARS)
    && (forall s, c :: 0 <= s < NSTATES && 0 <= c < NCHARS ==> t.goto[s][c] < NSTATES)
    && t.curstat < NSTATES
  }

  predicate Live(t: Table, s: int) {
    1 <= s <= t.curstat
  }

  function ZeroRow(): (r: seq<nat>)
    ensures |r| == NCHARS && forall c :: 0 <= c < NCHARS ==> r[c] == 0
  {
    seq(NCHARS, _ => 0)
  }

  /** The positions that state `s` goes to on `c`. */
  function Next(rows: seq<Row>, t: Table, s: nat, c: Symbol): set<nat>
    requires s < |t.posns|
  {
    Step(rows, t.posns[s], c)
  }

  /** The first state from `i` on with these positions, 0 if there is none. */
  function FindState(t: Table, p: set<nat>, i: nat): (r: nat)
    requires t.curstat < |t.posns|
    ensures r != 0 ==> i <= r <= t.curstat && t.posns[r] == p
    ensures r == 0 && 0 < i ==> forall j :: i <= j <= t.curstat ==> t.posns[j] != p
    decreases t.curstat + 1 - i
  {
    if i > t.curstat then 0 else if t.posns[i] == p then i else FindState(t, p, i + 1)
  }

  predicate IsFull(t: Table) {
    t.curstat >= NSTATES - 1
  }

  /** A new state for `p`; when the table is full all states but 1 go first. */
  function AddState(rows: seq<Row>, t: Table, p: set<nat>): (t': Table)
    requires Shape(t)
    ensures Shape(t')
  {
    var n := if IsFull(t) then 2 else t.curstat + 1;
    var kept := if IsFull(t) then t.posns[..2] + seq(NSTATES - 2, _ => {}) else t.posns;
    Table(t.goto[n := ZeroRow()], kept[n := p], t.out[n := |rows| - 1 in p], t.initstat, n, t.reset || IsFull(t))
  }

  function SetGoto(t: Table, s: nat, c: Symbol, n: nat): (t': Table)
    requires Shape(t) && s < NSTATES && c < NCHARS && n < NSTATES
    ensures Shape(t')
  {
    var row: seq<nat> := t.goto[s][c := n];
    t.(goto := t.goto[s := row])
  }

  /** What `cgoto` does: reuse a state with the same positions or add one; either way
      write the entry in row `s`, even when that row's state has just been flushed. */
  function CGoto(rows: seq<Row>, t: Table, s: nat, c: Symbol): (r: (Table, nat))
    requires Shape(t) && s < NSTATES && c < NCHARS
    ensures Shape(r.0) && r.1 < NSTATES
  {
    var p := Next(rows, t, s, c);
    var i := FindState(t, p, 1);
    if i != 0 then (SetGoto(t, s, c, i), i)
    else var t' := AddState(rows, t, p); (SetGoto(t', s, c, t'.curstat), t'.curstat)
  }

  /** One step of a matching loop: the table entry if there is one, else `cgoto`. */
  function Look(rows: seq<Row>, t: Table, s: nat, c: Symbol): (r: (Table, nat))
    requires Shape(t) && s < NSTATES && c < NCHARS
    ensures Shape(r.0) && r.1 < NSTATES
  {
    if t.goto[s][c] != 0 then (t, t.goto[s][c]) else CGoto(rows, t, s, c)
  }

  // ----- The invariant.

  predicate StateOk(rows: seq<Row>, t: Table, s: nat)
    requires Shape(t) && s < NSTATES
  {
    t.out[s] <==> |rows| - 1 in t.posns[s]
  }

  /** A filled entry of a live row names a live state with exactly the successor positions. */
  predicate EntryOk(rows: seq<Row>, t: Table, s: nat, c: Symbol)
    requires Shape(t) && s < NSTATES && c < NCHARS
  {
    var n := t.goto[s][c];
    n != 0 ==> Live(t, n) && n < NSTATES && t.posns[n] == Next(rows, t, s, c)
  }

  predicate Differ(t: Table, s: nat, s': nat)
    requires Shape(t) && s < NSTATES && s' < NSTATES
  {
    t.posns[s] != t.posns[s']
  }

  /** An entry names a live state, or is not filled. */
  predicate EntryLive(t: Table, s: nat, c: Symbol)
    requires Shape(t) && s < NSTATES && c < NCHARS
  {
    t.goto[s][c] <= t.curstat
  }

  /** Live states have right `out` flags and are pairwise distinct; entries of a row
      name live states, those of the dead state the dead state. */
  ghost predicate States(rows: seq<Row>, t: Table) {
    && Shape(t)
    && 2 <= t.curstat
    && (forall s: nat {:trigger StateOk(rows, t, s)} :: Live(t, s) ==> StateOk(rows, t, s))
    && (forall s: nat, s': nat {:trigger Differ(t, s, s')} :: Live(t, s) && Live(t, s') && s != s' ==> Differ(t, s, s'))
    && t.posns[1] == {}
    && (forall c: nat :: c < HAT ==> EntryOk(rows, t, 1, c))
    && (forall s: nat, c: nat :: Live(t, s) && c < HAT ==> EntryLive(t, s, c))
  }

  /** ... and every entry for a text symbol is right. */
  ghost predicate Sound(rows: seq<Row>, t: Table) {
    && States(rows, t)
    && (forall s: nat, c: nat :: Live(t, s) && c < HAT ==> EntryOk(rows, t, s, c))
  }

  /** The one bad case: the table is full, the successor of state 2 is new, and it is not
      its own successor. State 2 becomes that successor and `c` then loops on it. */
  predicate Stale(rows: seq<Row>, t: Table, s: nat, c: Symbol)
    requires Shape(t)
  {
    && s == 2
    && c < HAT
    && IsFull(t)
    && FindState(t, Next(rows, t, s, c), 1) == 0
    && Step(rows, Next(rows, t, s, c), c) != Next(rows, t, s, c)
  }

  /** The dead state stays dead. */
  lemma DeadStateNext(rows: seq<Row>, t: Table, c: Symbol)
    requires |t.posns| > 1 && t.posns[1] == {}
    ensures Next(rows, t, 1, c) == {}
  {
    StepNone(rows, {}, c, |rows|);
  }

  lemma SetGotoKeepsStates(rows: seq<Row>, t: Table, s: nat, c: Symbol, n: nat)
    requires States(rows, t) && Live(t, s) && Live(t, n) && c < NCHARS
    requires t.posns[n] == Next(rows, t, s, c) || s != 1
    ensures States(rows, SetGoto(t, s, c, n))
  {
    var t' := SetGoto(t, s, c, n);
    forall s': nat | Live(t', s') ensures StateOk(rows, t', s') { assert StateOk(rows, t, s'); }
    forall s1: nat, s2: nat | Live(t', s1) && Live(t', s2) && s1 != s2
      ensures Differ(t', s1, s2)
    {
      assert Differ(t, s1, s2);
    }
    forall s1: nat, c1: nat | Live(t', s1) && c1 < HAT ensures EntryLive(t', s1, c1) { assert EntryLive(t, s1, c1); }
    forall c': nat | c' < HAT ensures EntryOk(rows, t', 1, c') { assert EntryOk(rows, t, 1, c'); }
  }

  /** An entry written into a live row keeps the table sound exactly when it is right. */
  lemma SetGotoSoundIff(rows: seq<Row>, t: Table, s: nat, c: Symbol, n: nat)
    requires Sound(rows, t) && Live(t, s) && Live(t, n) && c < NCHARS
    requires States(rows, SetGoto(t, s, c, n))
    ensures Sound(rows, SetGoto(t, s, c, n)) <==> (c < HAT ==> t.posns[n] == Next(rows, t, s, c))
  {
    var t' := SetGoto(t, s, c, n);
    assert c < HAT ==> (EntryOk(rows, t', s, c) <==> t.posns[n] == Next(rows, t, s, c));
    forall s': nat, c': nat | Live(t', s') && c' < HAT && (s' != s || c' != c)
      ensures EntryOk(rows, t', s', c')
    {
      assert EntryOk(rows, t, s', c');
    }
  }

  /** A fresh state keeps the states consistent: the live ones survive, or all but 1 go. */
  lemma AddStateKeepsStates(rows: seq<Row>, t: Table, p: set<nat>)
    requires |rows| > 0 && States(rows, t)
    requires forall s: nat :: Live(t, s) ==> t.posns[s] != p
    ensures States(rows, AddState(rows, t, p))
  {
    var t' := AddState(rows, t, p);
    var n := t'.curstat;
    assert StateOk(rows, t', n);
    forall s: nat | Live(t', s) && s != n
      ensures Live(t, s) && t'.posns[s] == t.posns[s] && t'.goto[s] == t.goto[s]
    {
    }
    forall s: nat | Live(t', s) && s != n ensures StateOk(rows, t', s) { assert StateOk(rows, t, s); }
    assert t.posns[1] == t'.posns[1];
    forall c: nat | c < HAT ensures EntryOk(rows, t', 1, c) && t'.goto[1][c] <= 1 {
      assert EntryOk(rows, t, 1, c);
      DeadStateEntry(rows, t, c);
    }
    forall s1: nat, s2: nat | Live(t', s1) && Live(t', s2) && s1 != s2 ensures Differ(t', s1, s2) {
      if s1 != n && s2 != n { assert Differ(t, s1, s2); }
    }
    forall s: nat, c: nat | Live(t', s) && c < HAT ensures EntryLive(t', s, c) {
      if s != n && s != 1 { assert EntryLive(t, s, c); }
    }
  }

  lemma DeadStateEntry(rows: seq<Row>, t: Table, c: Symbol)
    requires States(rows, t) && c < HAT
    ensures t.goto[1][c] <= 1
  {
    assert EntryOk(rows, t, 1, c);
    DeadStateNext(rows, t, c);
    assert t.goto[1][c] > 1 ==> Differ(t, 1, t.goto[1][c]);
  }

  lemma AddStateKeepsSound(rows: seq<Row>, t: Table, p: set<nat>)
    requires |rows| > 0 && Sound(rows, t)
    requires forall s: nat :: Live(t, s) ==> t.posns[s] != p
    ensures Sound(rows, AddState(rows, t, p))
  {
    AddStateKeepsStates(rows, t, p);
    var t' := AddState(rows, t, p);
    forall s: nat, c: nat | Live(t', s) && c < HAT ensures EntryOk(rows, t', s, c) {
      if s == t'.curstat {
        assert t'.goto[s][c] == 0;
      } else {
        assert EntryOk(rows, t, s, c);
      }
    }
  }

  /** `cgoto` keeps the states consistent and returns one with the successor positions,
      flush or not, and whatever the entries say. */
  lemma CGotoReturnsNext(rows: seq<Row>, t: Table, s: nat, c: Symbol)
    requires |rows| > 0 && States(rows, t) && Live(t, s) && c < NCHARS
    ensures var r := CGoto(rows, t, s, c);
            States(rows, r.0) && Live(r.0, r.1) && r.0.posns[r.1] == Next(rows, t, s, c)
  {
    var p := Next(rows, t, s, c);
    var i := FindState(t, p, 1);
    if i != 0 {
      SetGotoKeepsStates(rows, t, s, c, i);
    } else {
      DeadStateNext(rows, t, c);
      AddStateKeepsStates(rows, t, p);
      var t' := AddState(rows, t, p);
      if Live(t', s) {
        SetGotoKeepsStates(rows, t', s, c, t'.curstat);
      } else {
        assert forall s': nat :: Live(t', s') ==> SetGoto(t', s, c, t'.curstat).goto[s'] == t'.goto[s'];
        DeadRowKeepsStates(rows, t', s, c, t'.curstat);
      }
    }
  }

  /** Writing into the row of a state that is gone changes nothing that is read. */
  lemma DeadRowKeepsStates(rows: seq<Row>, t: Table, s: nat, c: Symbol, n: nat)
    requires States(rows, t) && !Live(t, s) && s < NSTATES && c < NCHARS && n < NSTATES
    ensures States(rows, SetGoto(t, s, c, n))
    ensures Sound(rows, t) ==> Sound(rows, SetGoto(t, s, c, n))
  {
    var t' := SetGoto(t, s, c, n);
    assert forall s': nat :: Live(t', s') ==> t'.goto[s'] == t.goto[s'];
    forall s': nat | Live(t', s') ensures StateOk(rows, t', s') { assert StateOk(rows, t, s'); }
    forall s1: nat, s2: nat | Live(t', s1) && Live(t', s2) && s1 != s2
      ensures Differ(t', s1, s2)
    {
      assert Differ(t, s1, s2);
    }
    forall s1: nat, c1: nat | Live(t', s1) && c1 < HAT ensures EntryLive(t', s1, c1) { assert EntryLive(t, s1, c1); }
    forall c': nat | c' < HAT ensures EntryOk(rows, t', 1, c') { assert EntryOk(rows, t, 1, c'); }
    if Sound(rows, t) {
      forall s': nat, c': nat | Live(t', s') && c' < HAT ensures EntryOk(rows, t', s', c') {
        assert EntryOk(rows, t, s', c');
      }
    }
  }

  /** MAIN: `cgoto` keeps the table sound exactly when it does not write a stale entry. */
  lemma CGotoSoundIff(rows: seq<Row>, t: Table, s: nat, c: Symbol)
    requires |rows| > 0 && Sound(rows, t) && Live(t, s) && c < NCHARS
    ensures Sound(rows, CGoto(rows, t, s, c).0) <==> !Stale(rows, t, s, c)
  {
    var p := Next(rows, t, s, c);
    var i := FindState(t, p, 1);
    CGotoReturnsNext(rows, t, s, c);
    if i != 0 {
      SetGotoSoundIff(rows, t, s, c, i);
    } else {
      AddStateKeepsSound(rows, t, p);
      var t' := AddState(rows, t, p);
      if Live(t', s) {
        assert t'.posns[s] == if IsFull(t) && s == 2 then p else t.posns[s];
        SetGotoSoundIff(rows, t', s, c, t'.curstat);
      } else {
        DeadRowKeepsStates(rows, t', s, c, t'.curstat);
      }
    }
  }
}
