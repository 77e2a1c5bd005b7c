/** Expressions whose position sets fit into the table: it is never flushed, and every search is
    answered rightly, in any sequence of calls. */
module RegexFits {
  import opened RegexTree
  import opened RegexAutomaton
  import opened RegexStart
  import opened RegexTable
  import opened RegexRun
  import opened RegexMatch
  import opened RegexScan
  import opened RegexBuild
  import opened RegexGsub

  /** Position sets, no more than the table has states, among them all that are reached from one of
      them. */
  ghost predicate Family(rows: seq<Row>, fam: set<set<nat>>) {
    && {} in fam && |fam| < NSTATES
    && forall p: set<nat>, c: nat :: p in fam && c < HAT ==> Step(rows, p, c) in fam
  }

  /** The table has states of the family only. */
  ghost predicate Within(t: Table, fam: set<set<nat>>)
    requires Shape(t)
  {
    forall s: nat :: Live(t, s) ==> t.posns[s] in fam
  }

  // ----- No state is added to a full table.

  /** The position sets of states 1 to `k`. */
  ghost function Sets(t: Table, k: nat): set<set<nat>>
    requires Shape(t) && k < NSTATES
  {
    if k == 0 then {} else Sets(t, k - 1) + {t.posns[k]}
  }

  lemma {:induction false} SetsCount(rows: seq<Row>, t: Table, fam: set<set<nat>>, p: set<nat>, k: nat)
    requires States(rows, t) && Within(t, fam) && k <= t.curstat
    requires forall i :: 1 <= i <= t.curstat ==> t.posns[i] != p
    ensures |Sets(t, k)| == k && Sets(t, k) <= fam && p !in Sets(t, k)
    ensures forall j :: k < j <= t.curstat ==> t.posns[j] !in Sets(t, k)
  {
    if k > 0 {
      SetsCount(rows, t, fam, p, k - 1);
      assert t.posns[k] !in Sets(t, k - 1);
      forall j | k < j <= t.curstat ensures t.posns[j] != t.posns[k] { assert Differ(t, j, k); }
    }
  }

  lemma SubsetCount(a: set<set<nat>>, b: set<set<nat>>, p: set<nat>)
    requires a <= b && p in b && p !in a
    ensures |a| < |b|
  {
    SubsetSize(a, b - {p});
  }

  lemma {:induction false} SubsetSize(a: set<set<nat>>, b: set<set<nat>>)
    requires a <= b
    ensures |a| <= |b|
    decreases a
  {
    if a != {} {
      var x :| x in a;
      SubsetSize(a - {x}, b - {x});
    }
  }

  lemma RoomForNew(rows: seq<Row>, t: Table, fam: set<set<nat>>, p: set<nat>)
    requires States(rows, t) && Family(rows, fam) && Within(t, fam) && p in fam && FindState(t, p, 1) == 0
    ensures !IsFull(t)
  {
    SetsCount(rows, t, fam, p, t.curstat);
    SubsetCount(Sets(t, t.curstat), fam, p);
  }

  /** A step of a search. */
  lemma LookFits(rows: seq<Row>, t: Table, s: nat, c: Symbol, fam: set<set<nat>>)
    requires |rows| > 0 && Sound(rows, t) && Live(t, s) && c < HAT && Family(rows, fam) && Within(t, fam)
    ensures !Misleads(rows, t, s, c)
    ensures var r := Look(rows, t, s, c); Sound(rows, r.0) && Live(r.0, r.1) && Within(r.0, fam) && r.0.reset == t.reset
  {
    var p := Next(rows, t, s, c);
    LookKeeps(rows, t, s, c);
    if FindState(t, p, 1) == 0 { RoomForNew(rows, t, fam, p); }
    LookSound(rows, t, s, c);
    var t' := Look(rows, t, s, c).0;
    forall i: nat | Live(t', i) ensures t'.posns[i] in fam { assert Live(t, i) ==> t.posns[i] in fam; }
  }

  // ----- match

  lemma {:induction false} MatchRunFits(rows: seq<Row>, t: Table, s: nat, w: seq<Symbol>, fam: set<set<nat>>)
    requires |rows| > 0 && Sound(rows, t) && Live(t, s) && Bytes(w) && Family(rows, fam) && Within(t, fam)
    ensures MatchClean(rows, t, s, w)
    ensures var t' := MatchRun(rows, t, s, w).0; Within(t', fam) && t'.reset == t.reset
    decreases w
  {
    if !t.out[s] && w != [] {
      LookFits(rows, t, s, w[0], fam);
      var (t', s') := Look(rows, t, s, w[0]);
      MatchRunFits(rows, t', s', w[1..], fam);
    }
  }

  /** A table for `match` that holds only states of the family. */
  ghost predicate CalmFloating(rows: seq<Row>, s: set<nat>, fam: set<set<nat>>, t: Table) {
    Family(rows, fam) && Searchable(rows, s, t) && !t.reset && Within(t, fam)
  }

  lemma MatchTopFits(rows: seq<Row>, s: set<nat>, p: Re, fam: set<set<nat>>, t: Table, text: seq<Symbol>)
    requires Recognises(rows, s, p) && CalmFloating(rows, s, fam, t) && IsText(text)
    ensures var r := MatchTop(rows, t, text); CalmFloating(rows, s, fam, r.0) && (r.1 <==> Contains(p, text))
  {
    MatchStart(rows, s, t);
    MatchTopKeeps(rows, s, t, text);
    MatchRunFits(rows, t, t.initstat, text + [NUL], fam);
    MatchTopRight(rows, s, p, t, text);
  }

  predicate AllTexts(texts: seq<seq<Symbol>>) {
    forall i :: 0 <= i < |texts| ==> IsText(texts[i])
  }

  /** The answers of one call of `match` after the other. */
  function Answers(rows: seq<Row>, t: Table, texts: seq<seq<Symbol>>): (r: seq<bool>)
    requires Shape(t) && t.initstat < NSTATES && |rows| > 0 && AllTexts(texts)
    ensures |r| <= |texts|
    decreases |texts|
  {
    if texts == [] then []
    else
      var (t', found) := MatchTop(rows, t, texts[0]);
      [found] + if t'.initstat < NSTATES then Answers(rows, t', texts[1..]) else []
  }

  /** MAIN: if the position sets that are reached fit into the table, every call of `match` in any
      sequence of calls is answered rightly. */
  lemma {:induction false} MatchesFit(rows: seq<Row>, s: set<nat>, p: Re, fam: set<set<nat>>, t: Table,
                                      texts: seq<seq<Symbol>>)
    requires Recognises(rows, s, p) && CalmFloating(rows, s, fam, t) && AllTexts(texts)
    ensures var a := Answers(rows, t, texts);
            |a| == |texts| && forall i :: 0 <= i < |a| ==> (a[i] <==> Contains(p, texts[i]))
    decreases |texts|
  {
    hide Contains, MatchTop, Family, Within;
    if texts != [] {
      MatchTopFits(rows, s, p, fam, t, texts[0]);
      var t' := MatchTop(rows, t, texts[0]).0;
      assert AllTexts(texts[1..]);
      MatchesFit(rows, s, p, fam, t', texts[1..]);
    }
  }

  /** A new table holds only states of a family that the start positions are in. */
  lemma FreshFloatingFits(rows: seq<Row>, s: set<nat>, fam: set<set<nat>>, t0: Table, t: Table)
    requires Starts(rows, s) && Family(rows, fam) && {0} + s in fam && FloatingStart(rows, s) in fam
    requires Shape(t0) && DeadOk(t0) && t == MakeInit(rows, t0, false).(initstat := MakeInit(rows, t0, false).curstat)
    ensures CalmFloating(rows, s, fam, t)
  {
    MakeInitFloating(rows, s, t0, MakeInit(rows, t0, false));
    FirstTable(rows, s, false, t0, t, t.initstat);
  }

  // ----- pmatch and nematch

  lemma {:induction false} ScanRunFits(rows: seq<Row>, t: Table, s: nat, w: seq<Symbol>, q: nat, patlen: int,
                                       fam: set<set<nat>>)
    requires |rows| > 0 && Sound(rows, t) && Live(t, s) && Bytes(w) && w != [] && Family(rows, fam) && Within(t, fam)
    ensures ScanClean(rows, t, s, w)
    ensures var t' := ScanRun(rows, t, s, w, q, patlen).0; Sound(rows, t') && Within(t', fam) && t'.reset == t.reset
    decreases w
  {
    LookFits(rows, t, s, w[0], fam);
    var (t', s') := Look(rows, t, s, w[0]);
    if s' != 1 && |w| > 1 { ScanRunFits(rows, t', s', w[1..], q + 1, if t.out[s] then q else patlen, fam); }
  }

  lemma {:induction false} PRunFits(rows: seq<Row>, s0: set<nat>, t: Table, s: nat, text: seq<Symbol>, i: nat,
                                    patlen: int,
                                    nonEmpty: bool, fam: set<set<nat>>)
    requires Starts(rows, s0) && Ready(rows, s0, t) && !t.reset && Live(t, s) && IsText(text) && i <= |text|
    requires Family(rows, fam) && Within(t, fam)
    ensures PClean(rows, t, s, text, i, patlen, nonEmpty)
    ensures var t' := PRun(rows, t, s, text, i, patlen, nonEmpty).0; Within(t', fam) && !t'.reset
    decreases |text| - i
  {
    hide ScanRun, ScanClean, Family, Within;
    ScanRunFits(rows, t, s, text[i..] + [NUL], 0, patlen, fam);
    var (t1, len) := ScanRun(rows, t, s, text[i..] + [NUL], 0, patlen);
    CandidateTable(rows, s0, t, s, text, i, patlen, t1, Restart(t1));
    if len < Least(nonEmpty) && i != |text| && !(nonEmpty && i + 1 == |text|) {
      PRunFits(rows, s0, t1, 2, text, i + 1, len, nonEmpty, fam);
    }
  }

  /** A table for `pmatch` and `nematch` that holds only states of the family. */
  ghost predicate Calm(rows: seq<Row>, s0: set<nat>, fam: set<set<nat>>, t: Table) {
    Starts(rows, s0) && Family(rows, fam) && Usable(rows, s0, t) && !t.reset && Within(t, fam)
  }

  lemma PTopFits(rows: seq<Row>, s0: set<nat>, fam: set<set<nat>>, t: Table, text: seq<Symbol>, nonEmpty: bool)
    requires Calm(rows, s0, fam, t) && IsText(text)
    ensures PTopClean(rows, t, text, nonEmpty)
    ensures var t' := PTop(rows, t, text, nonEmpty).0; Calm(rows, s0, fam, t') && t'.initstat == t.initstat
  {
    hide PRun, PClean;
    PStart(rows, s0, t);
    PTopKeeps(rows, s0, t, text, nonEmpty);
    if !(nonEmpty && text == []) {
      PRunFits(rows, s0, t, t.initstat, text, 0, -1, nonEmpty, fam);
      PRunTable(rows, s0, t, t.initstat, text, 0, -1, nonEmpty, PRun(rows, t, t.initstat, text, 0, -1, nonEmpty));
    }
  }

  // ----- gsub

  lemma {:induction false} GsubCleanFits(rows: seq<Row>, s0: set<nat>, fam: set<set<nat>>, t: Table,
                                         text: seq<Symbol>, pos: nat)
    requires Calm(rows, s0, fam, t) && IsText(text) && pos <= |text|
    ensures GsubClean(rows, s0, t, text, pos)
    decreases |text| - pos
  {
    hide PTop, PTopClean, Family, Within;
    PTopFits(rows, s0, fam, t, text[pos..], false);
    var (t', a) := PTop(rows, t, text[pos..], false);
    var (next, more) := NextStart(text, pos, a);
    UsableAgain(rows, s0, t', 2);
    CalmAgain(rows, s0, fam, t', 2);
    if a.found && more && pos < next <= |text| { GsubCleanFits(rows, s0, fam, t'.(initstat := 2), text, next); }
  }

  lemma CalmAgain(rows: seq<Row>, s0: set<nat>, fam: set<set<nat>>, t: Table, i: nat)
    requires Calm(rows, s0, fam, t) && (i == 2 || i == HatState(rows, s0))
    ensures Calm(rows, s0, fam, t.(initstat := i))
  {
    UsableAgain(rows, s0, t, i);
  }

  lemma {:induction false} GsubLoopFits(rows: seq<Row>, s0: set<nat>, fam: set<set<nat>>, t: Table, text: seq<Symbol>,
                                        f: Filler,
                                        pos: nat, after: bool, a: Answer)
    requires Calm(rows, s0, fam, t) && IsText(text) && a.found && Fits(text, pos, a)
    requires AlwaysFits(Pmatcher(rows, text), text)
    ensures Calm(rows, s0, fam, GsubLoop(Pmatcher(rows, text), t, text, f, pos, after, a).table)
    decreases |text| - pos
  {
    hide PTop, Family, Within, Round;
    var search := Pmatcher(rows, text);
    LoopOnce(search, t, text, f, pos, after, a);
    var (next, more) := NextStart(text, pos, a);
    if more {
      PTopFits(rows, s0, fam, t, text[next..], false);
      var (t', a') := search(t, next);
      assert (t', a') == PTop(rows, t, text[next..], false);
      if a'.found { GsubLoopFits(rows, s0, fam, t', text, f, next, a.patlen != 0, a'); }
    }
  }

  lemma GsubTopFits(rows: seq<Row>, s0: set<nat>, fam: set<set<nat>>, t: Table, text: seq<Symbol>, f: Filler)
    requires Calm(rows, s0, fam, t) && IsText(text)
    ensures GsubClean(rows, s0, t, text, 0)
    ensures var t' := GsubTop(rows, t, text, f).table; Calm(rows, s0, fam, t') && t'.initstat == t.initstat
  {
    hide PTop, Family, Within, GsubLoop;
    GsubCleanFits(rows, s0, fam, t, text, 0);
    PmatcherFits(rows, text);
    assert text[0..] == text;
    PTopFits(rows, s0, fam, t, text, false);
    var (t', a) := PTop(rows, t, text, false);
    assert Pmatcher(rows, text)(t, 0) == (t', a);
    if a.found {
      CalmAgain(rows, s0, fam, t', 2);
      GsubLoopFits(rows, s0, fam, t'.(initstat := 2), text, f, 0, false, a);
      var g := GsubLoop(Pmatcher(rows, text), t'.(initstat := 2), text, f, 0, false, a);
      CalmAgain(rows, s0, fam, g.table, t.initstat);
    }
  }

  // ----- Any sequence of calls.

  datatype Call = Find(text: seq<Symbol>, nonEmpty: bool) | Replace(text: seq<Symbol>, f: Filler)

  datatype Reply = Where(a: Answer) | Made(buf: seq<Symbol>, num: nat)

  predicate AllCalls(calls: seq<Call>) {
    forall i :: 0 <= i < |calls| ==> IsText(calls[i].text)
  }

  function Serve(rows: seq<Row>, t: Table, call: Call): (Table, Reply)
    requires Shape(t) && t.initstat < NSTATES && |rows| > 0 && IsText(call.text)
  {
    match call
    case Find(text, nonEmpty) => var (t', a) := PTop(rows, t, text, nonEmpty); (t', Where(a))
    case Replace(text, f) => var g := GsubTop(rows, t, text, f); (g.table, Made(g.buf, g.num))
  }

  /** The leftmost longest match (the leftmost longest that is not empty), or what the walk makes. */
  ghost predicate RightReply(p: Re, call: Call, reply: Reply) {
    match call
    case Find(text, nonEmpty) => reply.Where? && PRunPost(p, true, text, nonEmpty, reply.a)
    case Replace(text, f) =>
      reply.Made? && (reply.buf, reply.num) == Rewritten(Lengths(p, true, text), text, f, 0, false)
  }

  lemma ServeFits(rows: seq<Row>, s0: set<nat>, p: Re, fam: set<set<nat>>, t: Table, call: Call)
    requires Recognises(rows, s0, p) && Calm(rows, s0, fam, t) && t.initstat == HatState(rows, s0) && IsText(call.text)
    ensures var r := Serve(rows, t, call);
            Calm(rows, s0, fam, r.0) && r.0.initstat == t.initstat && RightReply(p, call, r.1)
  {
    hide PTop, GsubTop, PRunPost, Rewritten, Recognises;
    match call
    case Find(text, nonEmpty) =>
      PTopFits(rows, s0, fam, t, text, nonEmpty);
      PTopRight(rows, s0, p, t, text, nonEmpty);
    case Replace(text, f) =>
      GsubTopFits(rows, s0, fam, t, text, f);
      GsubRight(rows, s0, p, t, text, f);
  }

  /** The replies to the calls are right one after the other. */
  ghost predicate ServesRightly(rows: seq<Row>, p: Re, t: Table, calls: seq<Call>)
    requires Shape(t) && t.initstat < NSTATES && |rows| > 0 && AllCalls(calls)
    decreases |calls|
  {
    calls == [] ||
    (var (t', reply) := Serve(rows, t, calls[0]);
     RightReply(p, calls[0], reply) && Shape(t') && t'.initstat < NSTATES && ServesRightly(rows, p, t', calls[1..]))
  }

  /** MAIN: if the position sets that are reached fit into the table, every call of `pmatch`,
      `nematch` and `gsub`, in any sequence of such calls, is answered rightly. */
  lemma {:induction false} CallsFit(rows: seq<Row>, s0: set<nat>, p: Re, fam: set<set<nat>>, t: Table, calls: seq<Call>)
    requires Recognises(rows, s0, p) && Calm(rows, s0, fam, t) && t.initstat == HatState(rows, s0) && AllCalls(calls)
    ensures ServesRightly(rows, p, t, calls)
    decreases |calls|
  {
    hide Serve, RightReply, Recognises, Family, Within;
    if calls != [] {
      ServeFits(rows, s0, p, fam, t, calls[0]);
      assert AllCalls(calls[1..]);
      CallsFit(rows, s0, p, fam, Serve(rows, t, calls[0]).0, calls[1..]);
    }
  }

  lemma FreshFits(rows: seq<Row>, s0: set<nat>, fam: set<set<nat>>, t0: Table, t: Table)
    requires Starts(rows, s0) && Family(rows, fam) && s0 in fam && AfterHat(rows, s0) in fam
    requires Shape(t0) && DeadOk(t0) && t == MakeInit(rows, t0, true).(initstat := MakeInit(rows, t0, true).curstat)
    ensures Calm(rows, s0, fam, t) && t.initstat == HatState(rows, s0)
  {
    MakeInitAnchored(rows, s0, t0, MakeInit(rows, t0, true));
    FirstTable(rows, s0, true, t0, t, t.initstat);
  }

  // ----- Expressions of at most two characters.

  /** All sets of numbers below `n`. */
  ghost function Subsets(n: nat): set<set<nat>> {
    if n == 0 then {{}} else Subsets(n - 1) + Extended(Subsets(n - 1), n - 1)
  }

  ghost function Extended(a: set<set<nat>>, x: nat): set<set<nat>> {
    set s | s in a :: s + {x}
  }

  lemma {:induction false} ExtendedSize(a: set<set<nat>>, x: nat)
    ensures |Extended(a, x)| <= |a|
    decreases a
  {
    if a == {} {
      assert Extended(a, x) == {};
    } else {
      var s :| s in a;
      ExtendedSize(a - {s}, x);
      assert Extended(a, x) == Extended(a - {s}, x) + {s + {x}};
    }
  }

  lemma SubsetsSize(n: nat)
    requires n <= 4
    ensures |Subsets(n)| <= 16
  {
    hide Subsets;
    OnlyEmpty();
    SubsetsDouble(0);
    SubsetsDouble(1);
    SubsetsDouble(2);
    SubsetsDouble(3);
  }

  lemma OnlyEmpty()
    ensures |Subsets(0)| == 1
  {
  }

  lemma SubsetsDouble(n: nat)
    ensures |Subsets(n + 1)| <= 2 * |Subsets(n)|
  {
    ExtendedSize(Subsets(n), n);
    UnionSize(Subsets(n), Extended(Subsets(n), n));
  }

  lemma UnionSize(a: set<set<nat>>, b: set<set<nat>>)
    ensures |a + b| <= |a| + |b|
  {
    assert a + b == a + (b - a);
    SubsetSize(b - a, b);
  }

  lemma {:induction false} SubsetsHas(n: nat, p: set<nat>)
    requires forall x :: x in p ==> x < n
    ensures p in Subsets(n)
  {
    if n == 0 {
      assert p == {};
    } else {
      SubsetsHas(n - 1, p - {n - 1});
      if n - 1 in p { assert p == (p - {n - 1}) + {n - 1}; } else { assert p == p - {n - 1}; }
    }
  }

  lemma StepBounded(rows: seq<Row>, p: set<nat>, c: Symbol)
    requires RowsOk(rows)
    ensures forall x :: x in Step(rows, p, c) ==> x < |rows|
  {
    forall x: nat | x in Step(rows, p, c) ensures x < |rows| {
      StepHas(rows, p, c, |rows|, x);
      var i :| 0 <= i < |rows| && i in p && Matches(rows[i].leaf, c) && x in rows[i].follow;
    }
  }

  /** They fit, whatever they are. */
  lemma SmallFits(rows: seq<Row>, s: set<nat>)
    requires Starts(rows, s) && RowsOk(rows) && |rows| <= 4
    ensures var fam := Subsets(|rows|);
            Family(rows, fam) && s in fam && AfterHat(rows, s) in fam && {0} + s in fam && FloatingStart(rows, s) in fam
  {
    var n := |rows|;
    SubsetsSize(n);
    SubsetsHas(n, {});
    forall p: set<nat>, c: nat | p in Subsets(n) && c < HAT ensures Step(rows, p, c) in Subsets(n) {
      StepBounded(rows, p, c);
      SubsetsHas(n, Step(rows, p, c));
    }
    forall x | x in s ensures x < n { assert x in AllFollow(rows); assert x in rows[0].follow; }
    StepBounded(rows, s, HAT);
    SubsetsHas(n, s);
    SubsetsHas(n, AfterHat(rows, s));
    SubsetsHas(n, {0} + s);
    SubsetsHas(n, FloatingStart(rows, s));
  }
}
