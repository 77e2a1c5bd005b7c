/** `makeinit` and the start states of an automaton. */
module RegexRun {
  import opened RegexTree
  import opened RegexPositions
  import opened RegexAutomaton
  import opened RegexStart
  import opened RegexTable

  /** Positions that follow the leading ALL. */
  function AllFollow(rows: seq<Row>): set<nat>
    requires |rows| > 0
  {
    Members(rows[0].follow)
  }

  /** Fresh state 2 with the positions that follow the leading ALL; only 1 and 2 are live. */
  function InitTable(rows: seq<Row>, t: Table): (t': Table)
    requires Shape(t) && |rows| > 0
    ensures Shape(t')
  {
    var p := AllFollow(rows);
    Table(t.goto[2 := ZeroRow()], t.posns[2 := p], t.out[2 := |rows| - 1 in p], t.initstat, 2, false)
  }

  /** Leave position 0 out of the states just made, and save state 2. */
  function Anchor(t: Table): (t': Table)
    requires Shape(t)
    ensures Shape(t')
  {
    var p := t.posns[2] - {0};
    var posns := t.posns[2 := p][0 := p];
    t.(posns := posns[t.curstat := posns[t.curstat] - {0}], out := t.out[0 := t.out[2]])
  }

  /** The table that `makeinit` leaves; it returns `curstat`, the state after HAT. */
  function MakeInit(rows: seq<Row>, t: Table, anchor: bool): (t': Table)
    requires Shape(t) && |rows| > 0
    ensures Shape(t')
  {
    var r := CGoto(rows, InitTable(rows, t), 2, HAT);
    var t1 := r.0.(curstat := r.1);
    if anchor then Anchor(t1) else t1
  }

  /** The dead state is empty and its entries lead nowhere else. */
  predicate DeadOk(t: Table)
    requires Shape(t)
  {
    t.posns[1] == {} && !t.out[1] && forall c :: 0 <= c < HAT ==> t.goto[1][c] <= 1
  }

  lemma StatesDeadOk(rows: seq<Row>, t: Table)
    requires |rows| > 0 && States(rows, t)
    ensures DeadOk(t)
  {
    assert Live(t, 1) && StateOk(rows, t, 1);
    forall c | 0 <= c < HAT ensures t.goto[1][c] <= 1 { DeadStateEntry(rows, t, c); }
  }

  /** `s` are the expression's own start positions: ALL's row adds itself to them, and
      nothing leads back to ALL. */
  ghost predicate Starts(rows: seq<Row>, s: set<nat>) {
    && |rows| > 2
    && rows[0].leaf == All && AllFollow(rows) == {0} + s
    && s != {} && 0 !in s && 0 !in Step(rows, s, HAT)
  }

  lemma AutomatonStarts(rows: seq<Row>, p: Re)
    requires Automaton(rows, p)
    ensures Starts(rows, Start(p, |rows| - 1))
  {
    var s := Start(p, |rows| - 1);
    RowZero(rows, p);
    StartIsOwn(rows, p);
    StepFromStartIsOwn(rows, p, HAT);
    DescendingShape({0} + s, |rows|);
  }

  /** Start positions with `^` possibly read already. */
  function AfterHat(rows: seq<Row>, s: set<nat>): set<nat> {
    s + Step(rows, s, HAT)
  }

  /** The state after HAT: 2 if HAT changes nothing, else the new state 3. */
  function HatState(rows: seq<Row>, s: set<nat>): nat {
    if AfterHat(rows, s) == s then 2 else 3
  }

  /** `^` does not occur, nor anything else that reads HAT. */
  predicate NoHat(p: Re) {
    match p
    case Atom(_, leaf) => !Matches(leaf, HAT)
    case Star(a) => NoHat(a)
    case Plus(a) => NoHat(a)
    case Quest(a) => NoHat(a)
    case Cat(a, b) => NoHat(a) && NoHat(b)
    case Or(a, b) => NoHat(a) && NoHat(b)
  }

  lemma {:induction false} NoHatLocs(t: Re, k: Ctx)
    requires NoHat(t)
    ensures forall l :: l in AllLocs(t, k) ==> !Matches(l.leaf, HAT)
    decreases t
  {
    match t
    case Atom(_, _) =>
    case Star(a) => NoHatLocs(a, InStar(a, k));
    case Plus(a) => NoHatLocs(a, InPlus(a, k));
    case Quest(a) => NoHatLocs(a, InQuest(k));
    case Cat(a, b) => NoHatLocs(a, InCatLeft(b, k)); NoHatLocs(b, InCatRight(k));
    case Or(a, b) => NoHatLocs(a, InOr(k)); NoHatLocs(b, InOr(k));
  }

  /** Without `^` the state after HAT is the plain start. */
  lemma NoHatPlainStart(rows: seq<Row>, p: Re)
    requires Automaton(rows, p) && NoHat(p)
    ensures HatState(rows, Start(p, |rows| - 1)) == 2
  {
    var accept := |rows| - 1;
    var x := FollowLocs(Ahead(p, accept));
    StartIsOwn(rows, p);
    OwnLocsClosed(rows, p, x, HAT);
    NoHatLocs(p, InCatRight(InCatLeft(Atom(accept, Final), Root)));
    assert StepLocs(x, HAT) == {};
    StepIsStepLocs(rows, Wrap(p, accept), x, HAT);
    assert Step(rows, Start(p, accept), HAT) == {};
  }

  lemma StepAllFollow(rows: seq<Row>, s: set<nat>)
    requires Starts(rows, s)
    ensures Step(rows, AllFollow(rows), HAT) == {0} + AfterHat(rows, s)
  {
    StepUnion(rows, {0}, s, HAT, |rows|);
    StepZeroOnly(rows, HAT, |rows|);
  }

  lemma InitSound(rows: seq<Row>, t: Table)
    requires |rows| > 0 && AllFollow(rows) != {} && Shape(t) && DeadOk(t)
    ensures Sound(rows, InitTable(rows, t))
  {
    var t1 := InitTable(rows, t);
    forall s: nat, c: nat | Live(t1, s) && c < HAT ensures EntryOk(rows, t1, s, c) && EntryLive(t1, s, c) {
      if s == 1 { DeadStateNext(rows, t1, c); }
    }
  }

  /** What `makeinit` for unanchored matching leaves of any table whose dead state is intact:
      a sound table, in it the state after HAT, and no entry for a text symbol yet. */
  lemma MakeInitFloating(rows: seq<Row>, s: set<nat>, t: Table, t': Table)
    requires Starts(rows, s) && Shape(t) && DeadOk(t) && t' == MakeInit(rows, t, false)
    ensures Sound(rows, t') && !t'.reset && t'.initstat == t.initstat && t'.curstat == HatState(rows, s)
    ensures t'.posns[2] == {0} + s && t'.posns[t'.curstat] == {0} + AfterHat(rows, s)
    ensures t'.goto[1] == t.goto[1] && forall c :: 0 <= c < HAT ==> t'.goto[2][c] == 0 && t'.goto[t'.curstat][c] == 0
  {
    var t1 := InitTable(rows, t);
    InitSound(rows, t);
    StepAllFollow(rows, s);
    var q := Next(rows, t1, 2, HAT);
    assert 0 in q && q != t1.posns[1];
    assert FindState(t1, q, 1) == if q == t1.posns[2] then 2 else 0;
    assert q == {0} + s <==> AfterHat(rows, s) == s by {
      if q == {0} + s { assert AfterHat(rows, s) == q - {0}; }
    }
    CGotoSoundIff(rows, t1, 2, HAT);
  }

  /** The state of an anchored automaton between two calls of `pmatch` or `nematch`: unless
      a flush is pending, state 2 is the plain start and `HatState` the start of a text. */
  ghost predicate Ready(rows: seq<Row>, s: set<nat>, t: Table) {
    && States(rows, t)
    && t.posns[0] == s
    && (t.out[0] <==> |rows| - 1 in s)
    && (!t.reset ==> Sound(rows, t) && HatState(rows, s) <= t.curstat &&
                     t.posns[2] == s && t.posns[HatState(rows, s)] == AfterHat(rows, s))
  }

  /** `makeinit` for anchored matching leaves a ready table. */
  lemma MakeInitAnchored(rows: seq<Row>, s: set<nat>, t: Table, t': Table)
    requires Starts(rows, s) && Shape(t) && DeadOk(t) && t' == MakeInit(rows, t, true)
    ensures Ready(rows, s, t') && !t'.reset && t'.initstat == t.initstat && t'.curstat == HatState(rows, s)
  {
    var t1 := MakeInit(rows, t, false);
    MakeInitFloating(rows, s, t, t1);
    assert ({0} + s) - {0} == s;
    assert ({0} + AfterHat(rows, s)) - {0} == AfterHat(rows, s);
    assert StateOk(rows, t1, 1) && StateOk(rows, t1, 2) && StateOk(rows, t1, t1.curstat);
    assert StateOk(rows, t', 1) && StateOk(rows, t', 2) && StateOk(rows, t', t'.curstat);
    forall q: nat, c: nat | Live(t', q) && c < HAT ensures EntryOk(rows, t', q, c) && EntryLive(t', q, c) {
      if q == 1 { DeadStateNext(rows, t', c); }
    }
  }
}
