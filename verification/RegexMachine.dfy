/** The automaton object of awk/b.c (struct fa) with its fixed-size tables, and the
    methods that fill and use them. */
module RegexMachine {
  import opened RegexTree
  import opened RegexAutomaton
  import opened RegexStart
  import opened RegexTable
  import opened RegexRun
  import opened RegexMatch
  import opened RegexScan

  /** A position list, largest first and without repetition: equal lists are equal sets. */
  predicate Listing(p: seq<nat>, n: nat) {
    p == Descending(Members(p), n)
  }

  lemma DescendingIsListing(s: set<nat>, n: nat)
    requires forall x :: x in s ==> x < n
    ensures Listing(Descending(s, n), n) && Members(Descending(s, n)) == s
  {
    DescendingShape(s, n);
    assert Members(Descending(s, n)) == s;
  }

  lemma ListingBelow(p: seq<nat>, n: nat)
    requires Listing(p, n)
    ensures forall i :: 0 <= i < |p| ==> p[i] < n
  {
    forall i | 0 <= i < |p| ensures p[i] < n { assert p[i] in p; }
  }

  /** In a listing, 0 comes last; leaving the last entry out leaves a listing. */
  lemma ListingWithoutZero(p: seq<nat>, n: nat)
    requires Listing(p, n) && 0 in p && n > 0
    ensures Listing(p[..|p| - 1], n) && Members(p[..|p| - 1]) == Members(p) - {0}
  {
    var s := Members(p) - {0};
    assert {0} + s == Members(p);
    DropZero(s, n);
    DescendingIsListing(s, n);
  }

  /** Positions reached from a list, taken entry by entry. */
  function StepList(rows: seq<Row>, p: seq<nat>, c: Symbol): set<nat>
    requires forall i :: 0 <= i < |p| ==> p[i] < |rows|
  {
    if p == [] then {}
    else var last := p[|p| - 1];
         StepList(rows, p[..|p| - 1], c) + (if Matches(rows[last].leaf, c) then Members(rows[last].follow) else {})
  }

  lemma {:induction false} StepListHas(rows: seq<Row>, p: seq<nat>, c: Symbol, x: nat)
    requires forall i :: 0 <= i < |p| ==> p[i] < |rows|
    ensures x in StepList(rows, p, c)
            <==> exists i :: 0 <= i < |p| && Matches(rows[p[i]].leaf, c) && x in rows[p[i]].follow
  {
    if p != [] { StepListHas(rows, p[..|p| - 1], c, x); }
  }

  lemma StepListIsStep(rows: seq<Row>, p: seq<nat>, c: Symbol)
    requires forall i :: 0 <= i < |p| ==> p[i] < |rows|
    ensures StepList(rows, p, c) == Step(rows, Members(p), c)
  {
    forall x: nat ensures x in StepList(rows, p, c) <==> x in Step(rows, Members(p), c) {
      StepListHas(rows, p, c, x);
      StepHas(rows, Members(p), c, |rows|, x);
      if i :| 0 <= i < |rows| && i in Members(p) && Matches(rows[i].leaf, c) && x in rows[i].follow {
        var j :| 0 <= j < |p| && p[j] == i;
      }
    }
  }

  /** Set the entries that `q` names. */
  method Mark(setvec: array<bool>, q: seq<nat>)
    requires forall x :: x in q ==> x < setvec.Length
    modifies setvec
    ensures forall x :: 0 <= x < setvec.Length ==> (setvec[x] <==> old(setvec[x]) || x in q)
  {
    for j := 0 to |q|
      invariant forall x :: 0 <= x < setvec.Length ==> (setvec[x] <==> old(setvec[x]) || x in q[..j])
    {
      assert q[j] in q;
      setvec[q[j]] := true;
    }
    assert q[..|q|] == q;
  }

  /** The entries that are set, largest first. */
  method Marked(setvec: array<bool>, ghost s: set<nat>) returns (d: seq<nat>)
    requires forall x :: 0 <= x < setvec.Length ==> (setvec[x] <==> x in s)
    ensures d == Descending(s, setvec.Length)
  {
    d := [];
    var i := setvec.Length;
    while i > 0
      invariant 0 <= i <= setvec.Length && Descending(s, setvec.Length) == d + Descending(s, i)
    {
      i := i - 1;
      assert d + Descending(s, i + 1) == d + (if i in s then [i] else []) + Descending(s, i);
      if setvec[i] { d := d + [i]; } else { assert d + [] == d; }
    }
    assert d == Descending(s, setvec.Length);
  }

  class Fa {
    const rows: seq<Row>
    ghost const expr: Re          // the expression the rows were built from
    ghost const starts: set<nat>  // its start positions
    const gototab: array<seq<nat>>
    const posns: array<seq<nat>>
    const out: array<bool>
    var initstat: nat
    var curstat: nat
    var reset: bool

    /** Cleared tables, as calloc leaves them. */
    constructor (rows: seq<Row>, ghost expr: Re, ghost starts: set<nat>)
      requires RowsOk(rows) && Listing(rows[0].follow, |rows|) && Starts(rows, starts)
      ensures Valid() && fresh(gototab) && fresh(posns) && fresh(out)
      ensures this.rows == rows && this.expr == expr && this.starts == starts
      ensures DeadOk(View())
    {
      this.rows, this.expr, this.starts := rows, expr, starts;
      gototab := new seq<nat>[NSTATES](_ => ZeroRow());
      posns := new seq<nat>[NSTATES](_ => []);
      out := new bool[NSTATES](_ => false);
      initstat, curstat, reset := 0, 0, false;
      new;
      DescendingEmpty(|rows|);
      assert Members([]) == {};
    }

    /** Sizes, and every position list sorted: the premise of comparing lists as sets. */
    ghost predicate Valid()
      reads this, gototab, posns, out
    {
      && gototab != posns && posns.Length == NSTATES
      && RowsOk(rows) && Listing(rows[0].follow, |rows|) && 0 in rows[0].follow && rows[0].leaf == All
      && posns[1] == []
      && Shape(View())
      && (forall i :: 0 <= i < NSTATES ==> Listing(posns[i], |rows|))
    }

    /** The table as a value, its position lists as sets. */
    function View(): Table
      requires posns.Length == NSTATES
      reads this, gototab, posns, out
    {
      var sets := seq(NSTATES, i requires 0 <= i < NSTATES reads posns => Members(posns[i]));
      Table(gototab[..], sets, out[..], initstat, curstat, reset)
    }

    /** Replace one position list. */
    method SetPosns(n: nat, p: seq<nat>)
      requires posns.Length == NSTATES && n < NSTATES && gototab != posns
      modifies posns
      ensures forall i :: 0 <= i < NSTATES ==> posns[i] == if i == n then p else old(posns[i])
      ensures View() == old(View()).(posns := old(View()).posns[n := Members(p)])
    {
      ghost var t := View();
      posns[n] := p;
      assert View().posns == t.posns[n := Members(p)];
    }

    /** Compute the successor of state `s` on `c`, find or make its state, record it. */
    method Cgoto(s: nat, c: Symbol) returns (r: nat)
      requires Valid() && curstat >= 2 && s < NSTATES && c < NCHARS
      modifies gototab, posns, out, `curstat, `reset
      ensures Valid() && View() == CGoto(rows, old(View()), s, c).0 && r == CGoto(rows, old(View()), s, c).1
    {
      ListingBelow(posns[s], |rows|);
      var tmpset := Successors(posns[s], c);
      assert Members(tmpset) == Next(rows, View(), s, c);
      r := PreviousState(tmpset);
      if r == 0 { r := NewState(tmpset); }
      ghost var t := View();
      gototab[s] := gototab[s][c := r];
      assert View() == SetGoto(t, s, c, r);
    }

    /** The live state with these positions, 0 if there is none. */
    method PreviousState(tmpset: seq<nat>) returns (r: nat)
      requires Valid() && Listing(tmpset, |rows|)
      ensures r == FindState(View(), Members(tmpset), 1)
    {
      r := 1;
      while r <= curstat
        invariant 1 <= r && FindState(View(), Members(tmpset), 1) == FindState(View(), Members(tmpset), r)
        decreases curstat + 1 - r
      {
        assert View().posns[r] == Members(posns[r]);
        if tmpset == posns[r] { return; }
        r := r + 1;
      }
      r := 0;
    }

    /** Take the next state number, flushing all but the dead state when there is none. */
    method NewState(tmpset: seq<nat>) returns (r: nat)
      requires Valid() && curstat >= 2 && Listing(tmpset, |rows|)
      modifies gototab, posns, out, `curstat, `reset
      ensures Valid() && View() == AddState(rows, old(View()), Members(tmpset)) && r == curstat
    {
      ghost var t := View();
      DescendingEmpty(|rows|);
      assert Members([]) == {};
      if curstat >= NSTATES - 1 {
        curstat, reset := 2, true;
        FreeStates(NSTATES - 1);
        assert View().posns == t.posns[..2] + seq(NSTATES - 2, _ => {});
      } else {
        curstat := curstat + 1;
      }
      r := curstat;
      ghost var u := View();
      ClearRow(r);
      SetPosns(r, tmpset);
      out[r] := |rows| - 1 in tmpset;
      assert View().out == u.out[r := |rows| - 1 in Members(tmpset)];
    }

    /** The positions that can be active after `c`, listed largest first. */
    method Successors(p: seq<nat>, c: Symbol) returns (tmpset: seq<nat>)
      requires RowsOk(rows) && forall i :: 0 <= i < |p| ==> p[i] < |rows|
      ensures Listing(tmpset, |rows|) && Members(tmpset) == Step(rows, Members(p), c)
    {
      var setvec := new bool[|rows|](_ => false);
      for i := 0 to |p|
        invariant forall x :: 0 <= x < |rows| ==> (setvec[x] <==> x in StepList(rows, p[..i], c))
      {
        assert p[..i + 1][..i] == p[..i];
        if Matches(rows[p[i]].leaf, c) {
          ghost var before := setvec[..];
          Mark(setvec, rows[p[i]].follow);
          assert forall x :: 0 <= x < |rows| ==> before[x] == (x in StepList(rows, p[..i], c));
        }
      }
      assert p[..|p|] == p;
      StepListIsStep(rows, p, c);
      ghost var s := Step(rows, Members(p), c);
      forall x | x in s ensures x < |rows| { StepHas(rows, Members(p), c, |rows|, x); }
      DescendingIsListing(s, |rows|);
      tmpset := Marked(setvec, s);
    }

    method ClearRow(n: nat)
      requires gototab.Length == NSTATES && n < NSTATES && |gototab[n]| == NCHARS
      modifies gototab
      ensures gototab[..] == old(gototab[..])[n := ZeroRow()]
    {
      for i := 0 to NCHARS
        invariant |gototab[n]| == NCHARS && forall j :: 0 <= j < i ==> gototab[n][j] == 0
        invariant forall k :: 0 <= k < NSTATES && k != n ==> gototab[k] == old(gototab[k])
      {
        gototab[n] := gototab[n][i := 0];
      }
      assert gototab[n] == ZeroRow();
    }

    /** Free the position lists of the states from 2 to `last`. */
    method FreeStates(last: nat)
      requires posns.Length == NSTATES && 2 <= last < NSTATES
      modifies posns
      ensures forall i :: 0 <= i < NSTATES ==> posns[i] == if 2 <= i <= last then [] else old(posns[i])
    {
      for i := 2 to last + 1
        invariant forall j :: 0 <= j < NSTATES ==> posns[j] == if 2 <= j < i then [] else old(posns[j])
      {
        posns[i] := [];
      }
    }

    /** State 2 from the leading ALL, then the state after HAT; anchored matching leaves
        ALL out of both and saves state 2 for restarts. */
    method Makeinit(anchor: bool) returns (r: nat)
      requires Valid()
      modifies gototab, posns, out, `curstat, `reset
      ensures Valid() && View() == MakeInit(rows, old(View()), anchor) && r == curstat
    {
      InitState();
      ghost var t := View();
      r := Cgoto(2, HAT);
      curstat := r;
      assert View() == CGoto(rows, t, 2, HAT).0.(curstat := r);
      AllSurvives(t);
      assert 0 in View().posns[2] && 0 in View().posns[curstat];
      if anchor { LeaveOutAll(); }
    }

    method InitState()
      requires Valid()
      modifies gototab, posns, out, `curstat, `reset
      ensures Valid() && View() == InitTable(rows, old(View()))
    {
      ghost var t := View();
      curstat, reset := 2, false;
      SetPosns(2, rows[0].follow);
      out[2] := |rows[0].follow| > 0 && rows[0].follow[0] == |rows| - 1;
      LastIsFirst();
      ClearRow(2);
    }

    /** The largest position, if active, heads the list. */
    lemma LastIsFirst()
      requires RowsOk(rows) && Listing(rows[0].follow, |rows|)
      ensures |rows| - 1 in AllFollow(rows) <==> |rows[0].follow| > 0 && rows[0].follow[0] == |rows| - 1
    {
      DescendingShape(AllFollow(rows), |rows|);
    }

    /** ALL consumes HAT, so it is active before and after. */
    lemma AllSurvives(t: Table)
      requires Shape(t) && t.curstat == 2 && t.posns[1] == {}
      requires RowsOk(rows) && 0 in rows[0].follow && rows[0].leaf == All && t.posns[2] == AllFollow(rows)
      ensures var r := CGoto(rows, t, 2, HAT);
              2 <= r.1 && 0 in r.0.posns[r.1] && r.0.posns[2] == t.posns[2]
    {
      StepHas(rows, t.posns[2], HAT, |rows|, 0);
      assert 0 in Next(rows, t, 2, HAT);
    }

    method LeaveOutAll()
      requires Valid() && curstat >= 2 && 0 in posns[2] && 0 in posns[curstat]
      modifies posns, out
      ensures Valid() && View() == Anchor(old(View()))
    {
      SaveStart();
      ghost var u := View();
      if curstat != 2 { DropLast(curstat); }
      assert u.posns[2] - {0} == u.posns[2] && u.posns[2 := u.posns[2]] == u.posns;
    }

    /** Leave ALL out of state 2 and save the list. */
    method SaveStart()
      requires Valid() && 0 in posns[2]
      modifies posns, out
      ensures Valid() && forall i :: 3 <= i < NSTATES ==> posns[i] == old(posns[i])
      ensures var t := old(View()); var p := t.posns[2] - {0};
              View() == t.(posns := t.posns[2 := p][0 := p], out := t.out[0 := t.out[2]]) && 0 !in p
    {
      DropLast(2);
      assert View().posns[2] == Members(posns[2]);
      SetPosns(0, posns[2]);
      out[0] := out[2];
    }

    /** Shorten a list by its last entry, position 0. */
    method DropLast(n: nat)
      requires Valid() && 2 <= n < NSTATES && 0 in posns[n]
      modifies posns
      ensures Valid() && View() == old(View()).(posns := old(View()).posns[n := old(View()).posns[n] - {0}])
      ensures forall i :: 0 <= i < NSTATES && i != n ==> posns[i] == old(posns[i])
    {
      ghost var t := View();
      var p := posns[n][..|posns[n]| - 1];
      ListingWithoutZero(posns[n], |rows|);
      assert t.posns[n] - {0} == Members(p);
      SetPosns(n, p);
    }

    /** Before the next candidate start: after a flush, state 2 is rebuilt from the saved start. */
    method RestartState()
      requires Valid() && curstat >= 2
      modifies gototab, posns, out, `curstat, `initstat
      ensures Valid() && curstat >= 2 && View() == Restart(old(View()))
    {
      if reset {
        ghost var t := View();
        DescendingEmpty(|rows|);
        assert Members([]) == {};
        FreeStates(curstat);
        ghost var freed := seq(NSTATES, i requires 0 <= i < NSTATES => if 2 <= i <= t.curstat then {} else t.posns[i]);
        assert View().posns == freed;
        SetPosns(2, posns[0]);
        initstat, curstat := 2, 2;
        out[2] := out[0];
        ClearRow(2);
      }
    }

    /** The table entry for `c`, or what `cgoto` makes it. */
    method Successor(s: nat, c: Symbol) returns (r: nat)
      requires Valid() && curstat >= 2 && s < NSTATES && c < NCHARS
      modifies gototab, posns, out, `curstat, `reset
      ensures Valid() && View() == Look(rows, old(View()), s, c).0 && r == Look(rows, old(View()), s, c).1
    {
      r := gototab[s][c];
      if r == 0 { r := Cgoto(s, c); }
    }

    /** Does the text contain a match? */
    method Match(text: seq<Symbol>) returns (found: bool)
      requires Valid() && Recognises(rows, starts, expr) && Searchable(rows, starts, View()) && IsText(text)
      modifies gototab, posns, out, `curstat, `reset
      ensures Valid() && Searchable(rows, starts, View())
      ensures View() == MatchTop(rows, old(View()), text).0 && found == MatchTop(rows, old(View()), text).1
      ensures MatchTopClean(rows, old(View()), text) ==> (found <==> Contains(expr, text))
    {
      ghost var t0 := View();
      MatchStart(rows, starts, t0);
      var s := initstat;
      if reset { s := Makeinit(false); }
      found := MatchFrom(s, text + [NUL]);
      MatchTopKeeps(rows, starts, t0, text);
      if MatchTopClean(rows, t0, text) { MatchTopRight(rows, starts, expr, t0, text); }
    }

    /** Follow the table from `s` over `w` up to the first accepting state. */
    method MatchFrom(s0: nat, w: seq<Symbol>) returns (found: bool)
      requires Valid() && Honest(rows, View()) && Live(View(), s0) && Bytes(w)
      modifies gototab, posns, out, `curstat, `reset
      ensures Valid() && View() == MatchRun(rows, old(View()), s0, w).0 && found == MatchRun(rows, old(View()), s0, w).1
    {
      var s, i := s0, 0;
      while !out[s] && i < |w|
        invariant Valid() && Honest(rows, View()) && Live(View(), s) && i <= |w|
        invariant MatchRun(rows, View(), s, w[i..]) == MatchRun(rows, old(View()), s0, w)
        decreases |w| - i
      {
        LookKeeps(rows, View(), s, w[i]);
        s := Successor(s, w[i]);
        i := i + 1;
      }
      found := out[s];
    }

    /** From state `s0`, the longest accepted length at the head of `w`, a text with its NUL. */
    method Scan(s0: nat, w: seq<Symbol>, patlen0: int) returns (patlen: int)
      requires Valid() && Honest(rows, View()) && Live(View(), s0) && Bytes(w) && w != []
      modifies gototab, posns, out, `curstat, `reset
      ensures Valid() && Honest(rows, View()) && Kept(old(View()), View())
      ensures View() == ScanRun(rows, old(View()), s0, w, 0, patlen0).0 &&
              patlen == ScanRun(rows, old(View()), s0, w, 0, patlen0).1
    {
      ghost var t0 := View();
      ScanRunKeeps(rows, t0, s0, w, 0, patlen0);
      var s, q := s0, 0;
      patlen := patlen0;
      while true
        invariant Valid() && Honest(rows, View()) && Live(View(), s) && q < |w|
        invariant ScanRun(rows, View(), s, w[q..], q, patlen) == ScanRun(rows, t0, s0, w, 0, patlen0)
        decreases |w| - q
      {
        ScanRunNext(rows, View(), s, w, q, patlen);
        if out[s] { patlen := q; }
        LookKeeps(rows, View(), s, w[q]);
        s := Successor(s, w[q]);
        if s == 1 { return; }
        q := q + 1;
        if q == |w| { break; }
      }
      if out[s] { patlen := q - 1; }
    }

    /** The leftmost-longest match, for `sub`, `gsub` and `match()`. */
    method Pmatch(text: seq<Symbol>) returns (a: Answer)
      requires Valid() && Recognises(rows, starts, expr) && Usable(rows, starts, View()) && IsText(text)
      modifies gototab, posns, out, `curstat, `reset, `initstat
      ensures Valid() && Usable(rows, starts, View())
      ensures View() == PTop(rows, old(View()), text, false).0 && a == PTop(rows, old(View()), text, false).1
      ensures PTopClean(rows, old(View()), text, false) ==>
                var hat := SeesHat(rows, starts, old(View()));
                if a.found then LeftmostLongest(expr, hat, text, a)
                else forall i, n :: !MatchesAt(expr, hat, text, i, n)
    {
      a := Search(text, false);
    }

    /** The leftmost-longest match that is not empty, for splitting fields. */
    method Nematch(text: seq<Symbol>) returns (a: Answer)
      requires Valid() && Recognises(rows, starts, expr) && Usable(rows, starts, View()) && IsText(text)
      modifies gototab, posns, out, `curstat, `reset, `initstat
      ensures Valid() && Usable(rows, starts, View())
      ensures View() == PTop(rows, old(View()), text, true).0 && a == PTop(rows, old(View()), text, true).1
      ensures PTopClean(rows, old(View()), text, true) ==>
                var hat := SeesHat(rows, starts, old(View()));
                if a.found then LeftmostLongestNonEmpty(expr, hat, text, a)
                else forall i, n :: MatchesAt(expr, hat, text, i, n) ==> n == 0
    {
      a := Search(text, true);
    }

    /** What `pmatch` and `nematch` share. */
    method Search(text: seq<Symbol>, nonEmpty: bool) returns (a: Answer)
      requires Valid() && Recognises(rows, starts, expr) && Usable(rows, starts, View()) && IsText(text)
      modifies gototab, posns, out, `curstat, `reset, `initstat
      ensures Valid() && Usable(rows, starts, View())
      ensures View() == PTop(rows, old(View()), text, nonEmpty).0 && a == PTop(rows, old(View()), text, nonEmpty).1
      ensures PTopClean(rows, old(View()), text, nonEmpty) ==>
                PRunPost(expr, SeesHat(rows, starts, old(View())), text, nonEmpty, a)
    {
      ghost var t0 := View();
      a := RunSearch(text, nonEmpty);
      PTopTheorem(rows, starts, expr, t0, text, nonEmpty, View(), a);
    }

    method RunSearch(text: seq<Symbol>, nonEmpty: bool) returns (a: Answer)
      requires Valid() && IsText(text) && Starts(rows, starts) && Usable(rows, starts, View())
      modifies gototab, posns, out, `curstat, `reset, `initstat
      ensures Valid() && View() == PTop(rows, old(View()), text, nonEmpty).0 &&
              a == PTop(rows, old(View()), text, nonEmpty).1
    {
      PStart(rows, starts, View());
      var s := initstat;
      if reset { s := Makeinit(true); }
      if nonEmpty && text == [] {
        a := Answer(false, 0, -1);
      } else {
        a := SearchFrom(s, text, nonEmpty);
      }
    }

    method SearchFrom(start: nat, text: seq<Symbol>, nonEmpty: bool) returns (a: Answer)
      requires Valid() && Starts(rows, starts) && Ready(rows, starts, View()) && Live(View(), start)
      requires IsText(text) && (nonEmpty ==> text != [])
      modifies gototab, posns, out, `curstat, `reset, `initstat
      ensures Valid()
      ensures View() == PRun(rows, old(View()), start, text, 0, -1, nonEmpty).0
      ensures a == PRun(rows, old(View()), start, text, 0, -1, nonEmpty).1
    {
      ghost var r := PRun(rows, View(), start, text, 0, -1, nonEmpty);
      var s, i, patlen := start, 0, -1;
      while true
        invariant Valid() && Ready(rows, starts, View()) && Live(View(), s) && i <= |text| && (nonEmpty ==> i < |text|)
        invariant PRun(rows, View(), s, text, i, patlen, nonEmpty) == r
        decreases |text| - i
      {
        patlen := Candidate(s, text, i, patlen, nonEmpty);
        if patlen >= Least(nonEmpty) { return Answer(true, i, patlen); }
        if i == |text| || (nonEmpty && i + 1 == |text|) { return Answer(false, 0, patlen); }
        s, i := 2, i + 1;
      }
    }

    /** Scan from one candidate start, and prepare for the next when there is no match. */
    method Candidate(s: nat, text: seq<Symbol>, i: nat, patlen0: int, nonEmpty: bool)
      returns (patlen: int)
      requires Valid() && Starts(rows, starts) && Ready(rows, starts, View()) && Live(View(), s) && IsText(text) &&
               i <= |text|
      modifies gototab, posns, out, `curstat, `reset, `initstat
      ensures Valid() && Ready(rows, starts, View()) && Live(View(), 2)
      ensures var r := ScanRun(rows, old(View()), s, text[i..] + [NUL], 0, patlen0);
              patlen == r.1 && View() == if patlen >= Least(nonEmpty) then r.0 else Restart(r.0)
      ensures patlen < Least(nonEmpty) && i < |text| && !(nonEmpty && i + 1 == |text|) ==>
                PRun(rows, old(View()), s, text, i, patlen0, nonEmpty) ==
                    PRun(rows, View(), 2, text, i + 1, patlen, nonEmpty)
    {
      ghost var t := View();
      patlen := Scan(s, text[i..] + [NUL], patlen0);
      ghost var t1 := View();
      CandidateTable(rows, starts, t, s, text, i, patlen0, t1, Restart(t1));
      if patlen < Least(nonEmpty) {
        RestartState();
        if i < |text| && !(nonEmpty && i + 1 == |text|) {
          PRunNext(rows, t, s, text, i, patlen0, nonEmpty, t1, patlen, View());
        }
      }
    }
  }
}
