/** The loops of `pmatch` and `nematch` as runs over the table, and the theorem that they
    find the leftmost-longest match in the language of the expression. */
module RegexScan {
  import opened RegexTree
  import opened RegexAutomaton
  import opened RegexStart
  import opened RegexTable
  import opened RegexRun
  import opened RegexMatch

  /** One inner loop: read `w` (the rest of the text and NUL) from state `s`, `q` symbols
      after the candidate start, keeping the longest accepted length. NUL is not counted. */
  function ScanRun(rows: seq<Row>, t: Table, s: nat, w: seq<Symbol>, q: nat, patlen: int): (r: (Table, int))
    requires Shape(t) && s < NSTATES && Bytes(w) && w != []
    ensures Shape(r.0)
    decreases w
  {
    var len := if t.out[s] then q else patlen;
    var (t', s') := Look(rows, t, s, w[0]);
    if s' == 1 then (t', len)
    else if |w| == 1 then (t', if t'.out[s'] then q else len)
    else ScanRun(rows, t', s', w[1..], q + 1, len)
  }

  lemma ScanRunNext(rows: seq<Row>, t: Table, s: nat, w: seq<Symbol>, k: nat, patlen: int)
    requires Shape(t) && s < NSTATES && Bytes(w) && k < |w|
    ensures Bytes(w[k..]) && w[k] < HAT
    ensures var len := if t.out[s] then k else patlen; var (t', s') := Look(rows, t, s, w[k]);
            ScanRun(rows, t, s, w[k..], k, patlen) ==
              if s' == 1 then (t', len)
              else if k + 1 == |w| then (t', if t'.out[s'] then k else len)
              else ScanRun(rows, t', s', w[k + 1..], k + 1, len)
  {
    assert w[k..][1..] == w[k + 1..];
  }

  /** No step of the scan follows a wrong entry. */
  predicate ScanClean(rows: seq<Row>, t: Table, s: nat, w: seq<Symbol>)
    requires Shape(t) && s < NSTATES && Bytes(w)
    decreases w
  {
    w == [] ||
    (!Misleads(rows, t, s, w[0]) &&
     var (t', s') := Look(rows, t, s, w[0]); s' == 1 || ScanClean(rows, t', s', w[1..]))
  }

  /** Every state that the scan visits has the positions that the automaton has there. */
  predicate ScanTrue(rows: seq<Row>, t: Table, s: nat, p: set<nat>, w: seq<Symbol>)
    requires Shape(t) && s < NSTATES && Bytes(w)
    decreases w
  {
    && t.posns[s] == p
    && (w == [] ||
        var (t', s') := Look(rows, t, s, w[0]); var p' := Step(rows, p, w[0]);
        if s' == 1 then t'.posns[s'] == p' else ScanTrue(rows, t', s', p', w[1..]))
  }

  lemma {:induction false} ScanTrueIff(rows: seq<Row>, t: Table, s: nat, w: seq<Symbol>)
    requires |rows| > 0 && Honest(rows, t) && Live(t, s) && Bytes(w)
    ensures ScanTrue(rows, t, s, t.posns[s], w) <==> ScanClean(rows, t, s, w)
    decreases w
  {
    if w != [] {
      LookRightIff(rows, t, s, w[0]);
      var (t', s') := Look(rows, t, s, w[0]);
      if s' != 1 { ScanTrueIff(rows, t', s', w[1..]); }
    }
  }

  /** Length `n` of `w` is accepted, where the whole of `w` (with its NUL) counts one less. */
  ghost predicate AcceptsLen(rows: seq<Row>, p: set<nat>, w: seq<Symbol>, n: int) {
    0 <= n < |w| && (Accepts(rows, p, w[..n]) || (n == |w| - 1 && Accepts(rows, p, w)))
  }

  /** `r` is the greatest accepted length, or `none` if there is none. */
  ghost predicate Longest(rows: seq<Row>, p: set<nat>, w: seq<Symbol>, none: int, r: int) {
    if exists n :: AcceptsLen(rows, p, w, n)
    then AcceptsLen(rows, p, w, r) && forall n :: AcceptsLen(rows, p, w, n) ==> n <= r
    else r == none
  }

  lemma AcceptsLenStep(rows: seq<Row>, p: set<nat>, w: seq<Symbol>, n: int)
    requires |w| > 1 && |rows| > 0
    ensures AcceptsLen(rows, p, w, n) <==>
              (n == 0 && |rows| - 1 in p) || AcceptsLen(rows, Step(rows, p, w[0]), w[1..], n - 1)
  {
    if 0 < n < |w| {
      assert w[..n][0] == w[0] && w[..n][1..] == w[1..][..n - 1];
    }
    assert w[..0] == [];
  }

  lemma {:induction false} DeadAccepts(rows: seq<Row>, w: seq<Symbol>, n: int)
    requires |rows| > 0
    ensures !AcceptsLen(rows, {}, w, n)
  {
    EmptyRun(rows, w);
    if 0 <= n < |w| { EmptyRun(rows, w[..n]); }
  }

  lemma {:induction false} ScanRunKeeps(rows: seq<Row>, t: Table, s: nat, w: seq<Symbol>, q: nat, patlen: int)
    requires |rows| > 0 && Honest(rows, t) && Live(t, s) && Bytes(w) && w != []
    ensures var r := ScanRun(rows, t, s, w, q, patlen); Honest(rows, r.0) && Kept(t, r.0)
    decreases w
  {
    LookKeeps(rows, t, s, w[0]);
    var (t', s') := Look(rows, t, s, w[0]);
    if s' != 1 && |w| > 1 {
      ScanRunKeeps(rows, t', s', w[1..], q + 1, if t.out[s] then q else patlen);
    }
  }

  lemma {:induction false} ScanRunRight(rows: seq<Row>, t: Table, s: nat, w: seq<Symbol>, q: nat, patlen: int)
    requires |rows| > 0 && Honest(rows, t) && Live(t, s) && Bytes(w) && w != [] && ScanClean(rows, t, s, w)
    ensures Longest(rows, t.posns[s], w, patlen - q, ScanRun(rows, t, s, w, q, patlen).1 - q)
    decreases w
  {
    var p := t.posns[s];
    var len := if t.out[s] then q else patlen;
    var (t', s') := Look(rows, t, s, w[0]);
    var p' := Step(rows, p, w[0]);
    var r := ScanRun(rows, t, s, w, q, patlen).1;
    assert StateOk(rows, t, s);
    LookRightIff(rows, t, s, w[0]);
    assert StateOk(rows, t', s');
    if |w| == 1 {
      LongestLast(rows, p, p', w, patlen - q, r - q);
    } else {
      forall n ensures AcceptsLen(rows, p, w, n) <==>
                         (n == 0 && |rows| - 1 in p) || AcceptsLen(rows, p', w[1..], n - 1) {
        AcceptsLenStep(rows, p, w, n);
      }
      if s' == 1 {
        forall n ensures !AcceptsLen(rows, p', w[1..], n) { DeadAccepts(rows, w[1..], n); }
      } else {
        ScanRunRight(rows, t', s', w[1..], q + 1, len);
      }
      LongestStep(rows, p, p', w, patlen - q, len - q, r - q);
    }
  }

  lemma LongestLast(rows: seq<Row>, p: set<nat>, p': set<nat>, w: seq<Symbol>, none: int, r: int)
    requires |w| == 1 && |rows| > 0 && p' == Step(rows, p, w[0])
    requires r == if |rows| - 1 in p || |rows| - 1 in p' then 0 else none
    ensures Longest(rows, p, w, none, r)
  {
    assert w[..0] == [] && w[1..] == [];
    assert Run(rows, p', []) == p' && Run(rows, p, w) == Run(rows, p', w[1..]);
    assert AcceptsLen(rows, p, w, 0) <==> |rows| - 1 in p || |rows| - 1 in p';
  }

  lemma LongestStep(rows: seq<Row>, p: set<nat>, p': set<nat>, w: seq<Symbol>, none: int, none': int, r: int)
    requires |w| > 1 && |rows| > 0
    requires forall n ::
               AcceptsLen(rows, p, w, n) <==> (n == 0 && |rows| - 1 in p) || AcceptsLen(rows, p', w[1..], n - 1)
    requires none' == if |rows| - 1 in p then 0 else none
    requires Longest(rows, p', w[1..], none' - 1, r - 1)
    ensures Longest(rows, p, w, none, r)
  {
    if n' :| AcceptsLen(rows, p', w[1..], n') {
      assert AcceptsLen(rows, p, w, n' + 1);
    } else if |rows| - 1 in p {
      assert AcceptsLen(rows, p, w, 0);
    }
  }

  /** What `pmatch` and `nematch` do before they try the next candidate start: after a
      flush, rebuild state 2 from the saved start positions and make it the start state. */
  function Restart(t: Table): (t': Table)
    requires Shape(t)
    ensures Shape(t')
  {
    if !t.reset then t else
      var freed := seq(NSTATES, i requires 0 <= i < NSTATES => if 2 <= i <= t.curstat then {} else t.posns[i]);
      Table(t.goto[2 := ZeroRow()], freed[2 := t.posns[0]], t.out[2 := t.out[0]], 2, 2, true)
  }

  /** A restart yields a sound table with the plain start in state 2. */
  lemma RestartReady(rows: seq<Row>, s: set<nat>, t: Table)
    requires Starts(rows, s) && Ready(rows, s, t)
    ensures var t' := Restart(t); Ready(rows, s, t') && Sound(rows, t') && t'.posns[2] == s
  {
    if t.reset {
      var t' := Restart(t);
      assert StateOk(rows, t, 1);
      assert StateOk(rows, t', 1) && StateOk(rows, t', 2);
      forall q: nat, c: nat | Live(t', q) && c < HAT ensures EntryOk(rows, t', q, c) && EntryLive(t', q, c) {
        if q == 1 {
          assert EntryOk(rows, t, 1, c);
          DeadStateEntry(rows, t, c);
          DeadStateNext(rows, t', c);
        }
      }
    }
  }

  /** `patbeg` as an index into the text. */
  datatype Answer = Answer(found: bool, patbeg: nat, patlen: int)

  /** The outer loop from candidate start `i` on. `pmatch` takes any length and tries the
      end of the text too; `nematch` takes positive lengths and stops before the end. */
  function PRun(rows: seq<Row>, t: Table, s: nat, text: seq<Symbol>, i: nat, patlen: int,
                nonEmpty: bool): (r: (Table, Answer))
    requires Shape(t) && s < NSTATES && IsText(text) && i <= |text|
    ensures Shape(r.0)
    decreases |text| - i
  {
    var (t1, len) := ScanRun(rows, t, s, text[i..] + [NUL], 0, patlen);
    if len >= Least(nonEmpty) then (t1, Answer(true, i, len))
    else if i == |text| || (nonEmpty && i + 1 == |text|) then (Restart(t1), Answer(false, 0, len))
    else PRun(rows, Restart(t1), 2, text, i + 1, len, nonEmpty)
  }

  predicate PClean(rows: seq<Row>, t: Table, s: nat, text: seq<Symbol>, i: nat, patlen: int, nonEmpty: bool)
    requires Shape(t) && s < NSTATES && IsText(text) && i <= |text|
    decreases |text| - i
  {
    ScanClean(rows, t, s, text[i..] + [NUL]) &&
    var (t1, len) := ScanRun(rows, t, s, text[i..] + [NUL], 0, patlen);
    len >= Least(nonEmpty) || i == |text| || (nonEmpty && i + 1 == |text|) ||
    PClean(rows, Restart(t1), 2, text, i + 1, len, nonEmpty)
  }

  /** The expression matches `n` symbols of the text from `i` on: `^` can match HAT in
      front of the text (if the caller starts there), `$` the NUL behind it. */
  ghost predicate MatchesAt(p: Re, hat: bool, text: seq<Symbol>, i: int, n: int) {
    && 0 <= i && 0 <= n && i + n <= |text|
    && (|| MatchesWord(p, hat && i == 0, text[i..i + n])
        || (i + n == |text| && MatchesWord(p, hat && i == 0, text[i..i + n] + [NUL])))
  }

  /** The positions a scan starts with. */
  function ScanStart(rows: seq<Row>, s: set<nat>, hat: bool): set<nat> {
    if hat then AfterHat(rows, s) else s
  }

  lemma ScanIsMatchesAt(rows: seq<Row>, s: set<nat>, p: Re, hat: bool, text: seq<Symbol>, i: nat, n: int)
    requires Recognises(rows, s, p) && IsText(text) && i <= |text|
    ensures AcceptsLen(rows, ScanStart(rows, s, hat && i == 0), text[i..] + [NUL], n) <==> MatchesAt(p, hat, text, i, n)
  {
    var w := text[i..] + [NUL];
    if 0 <= n && i + n <= |text| {
      assert w[..n] == text[i..i + n];
      assert Text(w[..n]) && Text(w);
      if i + n == |text| { assert w == text[i..i + n] + [NUL]; }
    }
  }

  /** The first start at which the expression matches, with the longest match there. */
  ghost predicate LeftmostLongest(p: Re, hat: bool, text: seq<Symbol>, a: Answer) {
    && MatchesAt(p, hat, text, a.patbeg, a.patlen)
    && (forall i, n :: 0 <= i < a.patbeg ==> !MatchesAt(p, hat, text, i, n))
    && (forall n :: MatchesAt(p, hat, text, a.patbeg, n) ==> n <= a.patlen)
  }

  /** The same among matches that are not empty. */
  ghost predicate LeftmostLongestNonEmpty(p: Re, hat: bool, text: seq<Symbol>, a: Answer) {
    && MatchesAt(p, hat, text, a.patbeg, a.patlen) && a.patlen > 0
    && (forall i, n :: 0 <= i < a.patbeg && n > 0 ==> !MatchesAt(p, hat, text, i, n))
    && (forall n :: MatchesAt(p, hat, text, a.patbeg, n) ==> n <= a.patlen)
  }

  /** `r` is the longest match at `i`, or `none` if there is none. */
  ghost predicate BestAt(p: Re, hat: bool, text: seq<Symbol>, i: nat, none: int, r: int) {
    if exists n :: MatchesAt(p, hat, text, i, n)
    then MatchesAt(p, hat, text, i, r) && forall n :: MatchesAt(p, hat, text, i, n) ==> n <= r
    else r == none
  }

  /** No match (or, for `nematch`, none but empty ones) starts before `i`. */
  ghost predicate NoneBefore(p: Re, hat: bool, text: seq<Symbol>, nonEmpty: bool, i: nat) {
    forall j, n :: 0 <= j < i && MatchesAt(p, hat, text, j, n) ==> nonEmpty && n == 0
  }

  function Least(nonEmpty: bool): nat {
    if nonEmpty then 1 else 0
  }

  /** What a run promises. */
  ghost predicate PRunPost(p: Re, hat: bool, text: seq<Symbol>, nonEmpty: bool, a: Answer) {
    if a.found
    then (if nonEmpty then LeftmostLongestNonEmpty(p, hat, text, a) else LeftmostLongest(p, hat, text, a))
    else forall i, n :: MatchesAt(p, hat, text, i, n) ==> nonEmpty && n == 0
  }

  lemma FoundIsRight(p: Re, hat: bool, text: seq<Symbol>, i: nat, none: int, r: int, nonEmpty: bool)
    requires NoneBefore(p, hat, text, nonEmpty, i) && BestAt(p, hat, text, i, none, r)
    requires none < Least(nonEmpty) <= r
    ensures PRunPost(p, hat, text, nonEmpty, Answer(true, i, r))
  {
  }

  lemma NoneHere(p: Re, hat: bool, text: seq<Symbol>, i: nat, none: int, r: int, nonEmpty: bool)
    requires NoneBefore(p, hat, text, nonEmpty, i) && BestAt(p, hat, text, i, none, r) && r < Least(nonEmpty)
    ensures NoneBefore(p, hat, text, nonEmpty, i + 1)
  {
    forall n | MatchesAt(p, hat, text, i, n) ensures nonEmpty && n == 0 {
    }
  }

  lemma NoneAtAll(p: Re, hat: bool, text: seq<Symbol>, i: nat, len: int, nonEmpty: bool)
    requires NoneBefore(p, hat, text, nonEmpty, i) && (if nonEmpty then i >= |text| else i > |text|)
    ensures PRunPost(p, hat, text, nonEmpty, Answer(false, 0, len))
  {
  }

  /** From the start of every candidate the rows accept exactly the lengths that match. */
  ghost predicate Reads(rows: seq<Row>, s0: set<nat>, p: Re, hat: bool, text: seq<Symbol>) {
    IsText(text) &&
      forall i: nat, n: int {:trigger ReadsAt(rows, s0, p, hat, text, i, n)} :: ReadsAt(rows, s0, p, hat, text, i, n)
  }

  ghost predicate ReadsAt(rows: seq<Row>, s0: set<nat>, p: Re, hat: bool, text: seq<Symbol>, i: nat, n: int) {
    i <= |text| ==>
        (AcceptsLen(rows, ScanStart(rows, s0, hat && i == 0), text[i..] + [NUL], n) <==> MatchesAt(p, hat, text, i, n))
  }

  lemma RecognisesReads(rows: seq<Row>, s0: set<nat>, p: Re, hat: bool, text: seq<Symbol>)
    requires Recognises(rows, s0, p) && IsText(text)
    ensures Reads(rows, s0, p, hat, text)
  {
    forall i: nat, n: int ensures ReadsAt(rows, s0, p, hat, text, i, n) {
      if i <= |text| { ScanIsMatchesAt(rows, s0, p, hat, text, i, n); }
    }
  }

  lemma LongestIsBestAt(rows: seq<Row>, s0: set<nat>, p: Re, hat: bool, text: seq<Symbol>, i: nat, none: int, r: int)
    requires Reads(rows, s0, p, hat, text) && i <= |text|
    requires Longest(rows, ScanStart(rows, s0, hat && i == 0), text[i..] + [NUL], none, r)
    ensures BestAt(p, hat, text, i, none, r)
  {
    var q, w := ScanStart(rows, s0, hat && i == 0), text[i..] + [NUL];
    forall n ensures AcceptsLen(rows, q, w, n) <==> MatchesAt(p, hat, text, i, n) {
      assert ReadsAt(rows, s0, p, hat, text, i, n);
    }
    if n :| MatchesAt(p, hat, text, i, n) { assert AcceptsLen(rows, q, w, n); }
  }

  /** What a run leaves of the table: reset stays, and so does `initstat` up to a restart. */
  predicate Carried(t: Table, t': Table) {
    (t.reset ==> t'.reset) && (t'.initstat == t.initstat || (t'.reset && t'.initstat == 2))
  }

  /** After a scan from candidate `i` the answer is known, or none starts up to `i`. */
  lemma CandidateAnswer(rows: seq<Row>, s0: set<nat>, p: Re, hat: bool, text: seq<Symbol>, i: nat,
                        patlen: int, nonEmpty: bool, len: int)
    requires Reads(rows, s0, p, hat, text) && i <= |text|
    requires Longest(rows, ScanStart(rows, s0, hat && i == 0), text[i..] + [NUL], patlen, len)
    requires patlen < Least(nonEmpty) && NoneBefore(p, hat, text, nonEmpty, i)
    ensures len >= Least(nonEmpty) ==> PRunPost(p, hat, text, nonEmpty, Answer(true, i, len))
    ensures len < Least(nonEmpty) ==> NoneBefore(p, hat, text, nonEmpty, i + 1)
    ensures len < Least(nonEmpty) && (i == |text| || (nonEmpty && i + 1 == |text|)) ==>
              PRunPost(p, hat, text, nonEmpty, Answer(false, 0, len))
  {
    LongestIsBestAt(rows, s0, p, hat, text, i, patlen, len);
    if len >= Least(nonEmpty) {
      FoundIsRight(p, hat, text, i, patlen, len, nonEmpty);
    } else {
      NoneHere(p, hat, text, i, patlen, len, nonEmpty);
      if i == |text| || (nonEmpty && i + 1 == |text|) {
        NoneAtAll(p, hat, text, i + 1, len, nonEmpty);
      }
    }
  }

  /** After a scan the table is ready, and a restart makes it ready for the next candidate. */
  lemma CandidateTable(rows: seq<Row>, s0: set<nat>, t: Table, s: nat, text: seq<Symbol>, i: nat, patlen: int,
                       t1: Table, t2: Table)
    requires Starts(rows, s0) && Ready(rows, s0, t) && Live(t, s) && IsText(text) && i <= |text|
    requires t1 == ScanRun(rows, t, s, text[i..] + [NUL], 0, patlen).0 && t2 == Restart(t1)
    ensures Ready(rows, s0, t1) && Carried(t, t1)
    ensures Ready(rows, s0, t2) && Carried(t, t2) && Sound(rows, t2) && Live(t2, 2) && t2.posns[2] == s0
  {
    ScanRunKeeps(rows, t, s, text[i..] + [NUL], 0, patlen);
    RestartReady(rows, s0, t1);
  }

  /** The run goes on with the next candidate when this one does not end it. */
  lemma PRunNext(rows: seq<Row>, t: Table, s: nat, text: seq<Symbol>, i: nat, patlen: int, nonEmpty: bool,
                 t1: Table, len: int, t2: Table)
    requires Shape(t) && s < NSTATES && IsText(text) && i < |text| && !(nonEmpty && i + 1 == |text|)
    requires (t1, len) == ScanRun(rows, t, s, text[i..] + [NUL], 0, patlen) && len < Least(nonEmpty)
    requires t2 == Restart(t1)
    ensures PRun(rows, t, s, text, i, patlen, nonEmpty) == PRun(rows, t2, 2, text, i + 1, len, nonEmpty)
    ensures PClean(rows, t, s, text, i, patlen, nonEmpty) ==> PClean(rows, t2, 2, text, i + 1, len, nonEmpty)
  {
  }

  /** One candidate's scan: it gives the answer, or no match starts up to `i`. */
  lemma CandidateScan(rows: seq<Row>, s0: set<nat>, hat: bool, t: Table, s: nat, text: seq<Symbol>, i: nat,
                      patlen: int, len: int)
    requires |rows| > 0 && Sound(rows, t) && Live(t, s) && IsText(text) && i <= |text|
    requires t.posns[s] == ScanStart(rows, s0, hat && i == 0)
    requires ScanClean(rows, t, s, text[i..] + [NUL])
    requires len == ScanRun(rows, t, s, text[i..] + [NUL], 0, patlen).1
    ensures Longest(rows, ScanStart(rows, s0, hat && i == 0), text[i..] + [NUL], patlen, len)
  {
    ScanRunRight(rows, t, s, text[i..] + [NUL], 0, patlen);
  }

  /** A candidate start: a right table in the state for position `i`, nothing found before. */
  ghost predicate CandidateOk(rows: seq<Row>, s0: set<nat>, p: Re, hat: bool, t: Table, s: nat, text: seq<Symbol>,
                              i: nat, patlen: int, nonEmpty: bool)
  {
    && Starts(rows, s0) && Ready(rows, s0, t) && Sound(rows, t) && Live(t, s)
    && IsText(text) && i <= |text| && (nonEmpty ==> i < |text|) && patlen < Least(nonEmpty)
    && t.posns[s] == ScanStart(rows, s0, hat && i == 0)
    && NoneBefore(p, hat, text, nonEmpty, i)
    && PClean(rows, t, s, text, i, patlen, nonEmpty)
  }

  /** No start is left after this one. */
  predicate IsLast(text: seq<Symbol>, i: nat, nonEmpty: bool) {
    i >= |text| || (nonEmpty && i + 1 == |text|)
  }

  lemma {:induction false} PRunAnswer(rows: seq<Row>, s0: set<nat>, p: Re, hat: bool, t: Table, s: nat,
                                      text: seq<Symbol>,
                                     i: nat, patlen: int, nonEmpty: bool, r: (Table, Answer))
    requires Reads(rows, s0, p, hat, text)
    requires CandidateOk(rows, s0, p, hat, t, s, text, i, patlen, nonEmpty)
    requires r == PRun(rows, t, s, text, i, patlen, nonEmpty)
    ensures PRunPost(p, hat, text, nonEmpty, r.1)
    decreases |text| - i
  {
    hide Reads, PRunPost, ScanRun, Restart, PRun, PClean;
    var (t1, len) := ScanRun(rows, t, s, text[i..] + [NUL], 0, patlen);
    if len >= Least(nonEmpty) || IsLast(text, i, nonEmpty) {
      LastCandidate(rows, s0, p, hat, t, s, text, i, patlen, nonEmpty, len, r);
    } else {
      NextCandidate(rows, s0, p, hat, t, s, text, i, patlen, nonEmpty, t1, len, Restart(t1), r);
      PRunAnswer(rows, s0, p, hat, Restart(t1), 2, text, i + 1, len, nonEmpty, r);
    }
  }

  /** The search ends here. */
  lemma LastCandidate(rows: seq<Row>, s0: set<nat>, p: Re, hat: bool, t: Table, s: nat, text: seq<Symbol>,
                      i: nat, patlen: int, nonEmpty: bool, len: int, r: (Table, Answer))
    requires Reads(rows, s0, p, hat, text)
    requires CandidateOk(rows, s0, p, hat, t, s, text, i, patlen, nonEmpty)
    requires r == PRun(rows, t, s, text, i, patlen, nonEmpty)
    requires len == ScanRun(rows, t, s, text[i..] + [NUL], 0, patlen).1
    requires len >= Least(nonEmpty) || IsLast(text, i, nonEmpty)
    ensures PRunPost(p, hat, text, nonEmpty, r.1)
  {
    CandidateScan(rows, s0, hat, t, s, text, i, patlen, len);
    CandidateAnswer(rows, s0, p, hat, text, i, patlen, nonEmpty, len);
  }

  /** The next candidate starts from a right table in state 2. */
  lemma NextCandidate(rows: seq<Row>, s0: set<nat>, p: Re, hat: bool, t: Table, s: nat, text: seq<Symbol>,
                      i: nat, patlen: int, nonEmpty: bool, t1: Table, len: int, t2: Table, r: (Table, Answer))
    requires Reads(rows, s0, p, hat, text)
    requires CandidateOk(rows, s0, p, hat, t, s, text, i, patlen, nonEmpty)
    requires r == PRun(rows, t, s, text, i, patlen, nonEmpty)
    requires (t1, len) == ScanRun(rows, t, s, text[i..] + [NUL], 0, patlen) && t2 == Restart(t1)
    requires len < Least(nonEmpty) && !IsLast(text, i, nonEmpty)
    ensures CandidateOk(rows, s0, p, hat, t2, 2, text, i + 1, len, nonEmpty)
    ensures r == PRun(rows, t2, 2, text, i + 1, len, nonEmpty)
  {
    CandidateScan(rows, s0, hat, t, s, text, i, patlen, len);
    CandidateAnswer(rows, s0, p, hat, text, i, patlen, nonEmpty, len);
    CandidateTable(rows, s0, t, s, text, i, patlen, t1, t2);
    PRunNext(rows, t, s, text, i, patlen, nonEmpty, t1, len, t2);
  }

  /** The table that the whole run leaves, whether or not it wrote a stale entry. */
  lemma {:induction false} PRunTable(rows: seq<Row>, s0: set<nat>, t: Table, s: nat, text: seq<Symbol>,
                                     i: nat, patlen: int, nonEmpty: bool, r: (Table, Answer))
    requires Starts(rows, s0) && Ready(rows, s0, t) && Live(t, s)
    requires IsText(text) && i <= |text| && (nonEmpty ==> i < |text|)
    requires r == PRun(rows, t, s, text, i, patlen, nonEmpty)
    ensures Ready(rows, s0, r.0) && Carried(t, r.0)
    decreases |text| - i
  {
    var (t1, len) := ScanRun(rows, t, s, text[i..] + [NUL], 0, patlen);
    var t2 := Restart(t1);
    CandidateTable(rows, s0, t, s, text, i, patlen, t1, t2);
    if len < Least(nonEmpty) && i < |text| && !(nonEmpty && i + 1 == |text|) {
      PRunNext(rows, t, s, text, i, patlen, nonEmpty, t1, len, t2);
      PRunTable(rows, s0, t2, 2, text, i + 1, len, nonEmpty, r);
    }
  }

  /** In all scans every state has the positions that the automaton has there. */
  predicate PTrue(rows: seq<Row>, s0: set<nat>, hat: bool, t: Table, s: nat, text: seq<Symbol>, i: nat, patlen: int,
                  nonEmpty: bool)
    requires Shape(t) && s < NSTATES && IsText(text) && i <= |text|
    decreases |text| - i
  {
    ScanTrue(rows, t, s, ScanStart(rows, s0, hat && i == 0), text[i..] + [NUL]) &&
    var (t1, len) := ScanRun(rows, t, s, text[i..] + [NUL], 0, patlen);
    len >= Least(nonEmpty) || i == |text| || (nonEmpty && i + 1 == |text|) ||
    PTrue(rows, s0, hat, Restart(t1), 2, text, i + 1, len, nonEmpty)
  }

  lemma {:induction false} PTrueIff(rows: seq<Row>, s0: set<nat>, hat: bool, t: Table, s: nat, text: seq<Symbol>,
                                    i: nat, patlen: int,
                                    nonEmpty: bool)
    requires Starts(rows, s0) && Ready(rows, s0, t) && Live(t, s) && IsText(text) && i <= |text|
    requires t.posns[s] == ScanStart(rows, s0, hat && i == 0)
    ensures PTrue(rows, s0, hat, t, s, text, i, patlen, nonEmpty) <==> PClean(rows, t, s, text, i, patlen, nonEmpty)
    decreases |text| - i
  {
    hide ScanTrue, ScanClean, ScanRun, Restart;
    ScanTrueIff(rows, t, s, text[i..] + [NUL]);
    var (t1, len) := ScanRun(rows, t, s, text[i..] + [NUL], 0, patlen);
    CandidateTable(rows, s0, t, s, text, i, patlen, t1, Restart(t1));
    if !(len >= Least(nonEmpty) || i == |text| || (nonEmpty && i + 1 == |text|)) {
      PTrueIff(rows, s0, hat, Restart(t1), 2, text, i + 1, len, nonEmpty);
    }
  }

  // ----- The calls.

  /** `pmatch` and `nematch`: rebuild the table if it was flushed, then run. */
  function PTop(rows: seq<Row>, t: Table, text: seq<Symbol>, nonEmpty: bool): (r: (Table, Answer))
    requires Shape(t) && t.initstat < NSTATES && IsText(text) && |rows| > 0
    ensures Shape(r.0)
  {
    var t1 := if t.reset then MakeInit(rows, t, true) else t;
    var s := if t.reset then t1.curstat else t.initstat;
    if nonEmpty && text == [] then (t1, Answer(false, 0, -1)) else PRun(rows, t1, s, text, 0, -1, nonEmpty)
  }

  /** No step of the call follows a wrong entry: a property of the table and the text. */
  predicate PTopClean(rows: seq<Row>, t: Table, text: seq<Symbol>, nonEmpty: bool)
    requires Shape(t) && t.initstat < NSTATES && IsText(text) && |rows| > 0
  {
    var t1 := if t.reset then MakeInit(rows, t, true) else t;
    var s := if t.reset then t1.curstat else t.initstat;
    (nonEmpty && text == []) || PClean(rows, t1, s, text, 0, -1, nonEmpty)
  }

  /** The table of an anchored automaton between calls. */
  ghost predicate Usable(rows: seq<Row>, s0: set<nat>, t: Table) {
    Ready(rows, s0, t) && (t.initstat == 2 || t.initstat == HatState(rows, s0))
  }

  /** Does the next call take `^` to match at the front of its text? */
  predicate SeesHat(rows: seq<Row>, s0: set<nat>, t: Table) {
    t.reset || t.initstat == HatState(rows, s0)
  }

  /** The table and state a call starts from. */
  lemma PStart(rows: seq<Row>, s0: set<nat>, t: Table)
    requires Starts(rows, s0) && Usable(rows, s0, t)
    ensures var t1 := if t.reset then MakeInit(rows, t, true) else t;
            var s := if t.reset then t1.curstat else t.initstat;
            Ready(rows, s0, t1) && !t1.reset && Live(t1, s) && t1.initstat == t.initstat &&
            t1.posns[s] == ScanStart(rows, s0, SeesHat(rows, s0, t))
  {
    StatesDeadOk(rows, t);
    if t.reset { MakeInitAnchored(rows, s0, t, MakeInit(rows, t, true)); }
  }

  /** Every call leaves a usable table, stale or not. But `^` survives the call only if a
      flush is pending or the start state was not the plain one: after a flush and a
      restart in one call, and no flush in the next, `^` is lost. */
  lemma PTopKeeps(rows: seq<Row>, s0: set<nat>, t: Table, text: seq<Symbol>, nonEmpty: bool)
    requires Starts(rows, s0) && Usable(rows, s0, t) && IsText(text)
    ensures var t' := PTop(rows, t, text, nonEmpty).0;
            Usable(rows, s0, t') && (SeesHat(rows, s0, t') <==> t'.reset || t.initstat == HatState(rows, s0))
  {
    PStart(rows, s0, t);
    var t1 := if t.reset then MakeInit(rows, t, true) else t;
    var s := if t.reset then t1.curstat else t.initstat;
    if !(nonEmpty && text == []) {
      PRunTable(rows, s0, t1, s, text, 0, -1, nonEmpty, PRun(rows, t1, s, text, 0, -1, nonEmpty));
    }
  }

  /** In the call every state has the positions that the automaton has there, with `^` read in
      front of the text if `hat` says so. */
  predicate PTopTrue(rows: seq<Row>, s0: set<nat>, hat: bool, t: Table, text: seq<Symbol>, nonEmpty: bool)
    requires Shape(t) && t.initstat < NSTATES && IsText(text) && |rows| > 0
  {
    var t1 := if t.reset then MakeInit(rows, t, true) else t;
    var s := if t.reset then t1.curstat else t.initstat;
    (nonEmpty && text == []) || PTrue(rows, s0, hat, t1, s, text, 0, -1, nonEmpty)
  }

  /** MAIN: no step follows a wrong entry exactly if every state that the call visits has the true
      positions. */
  lemma PTopTrueIff(rows: seq<Row>, s0: set<nat>, t: Table, text: seq<Symbol>, nonEmpty: bool)
    requires Starts(rows, s0) && Usable(rows, s0, t) && IsText(text)
    ensures PTopClean(rows, t, text, nonEmpty) <==> PTopTrue(rows, s0, SeesHat(rows, s0, t), t, text, nonEmpty)
  {
    PStart(rows, s0, t);
    var t1 := if t.reset then MakeInit(rows, t, true) else t;
    if !(nonEmpty && text == []) {
      PTrueIff(rows, s0, SeesHat(rows, s0, t), t1, if t.reset then t1.curstat else t.initstat, text, 0, -1, nonEmpty);
    }
  }

  /** The call starts with the true positions exactly if it takes `^` as it should, or `^` makes no
      difference at the beginning. */
  lemma PTopStartsTrue(rows: seq<Row>, s0: set<nat>, hat: bool, t: Table, text: seq<Symbol>)
    requires Starts(rows, s0) && Usable(rows, s0, t) && IsText(text) && PTopTrue(rows, s0, hat, t, text, false)
    ensures hat == SeesHat(rows, s0, t) || HatState(rows, s0) == 2
  {
    PStart(rows, s0, t);
  }

  /** If `^` makes no difference there, it does not matter how it is taken. */
  lemma {:induction false} PTrueEither(rows: seq<Row>, s0: set<nat>, hat: bool, t: Table, s: nat, text: seq<Symbol>,
                                       i: nat, patlen: int,
                                       nonEmpty: bool)
    requires Shape(t) && s < NSTATES && IsText(text) && i <= |text| && HatState(rows, s0) == 2
    ensures PTrue(rows, s0, hat, t, s, text, i, patlen, nonEmpty) ==
              PTrue(rows, s0, !hat, t, s, text, i, patlen, nonEmpty)
    decreases |text| - i
  {
    hide ScanTrue, ScanRun, Restart;
    var (t1, len) := ScanRun(rows, t, s, text[i..] + [NUL], 0, patlen);
    if !(len >= Least(nonEmpty) || i == |text| || (nonEmpty && i + 1 == |text|)) {
      PTrueEither(rows, s0, hat, Restart(t1), 2, text, i + 1, len, nonEmpty);
    }
  }

  /** MAIN: then `pmatch` finds the leftmost-longest match, `nematch` the leftmost-longest
      non-empty one, and either fails exactly when there is none. */
  lemma PTopRight(rows: seq<Row>, s0: set<nat>, p: Re, t: Table, text: seq<Symbol>, nonEmpty: bool)
    requires Recognises(rows, s0, p) && Usable(rows, s0, t) && IsText(text) && PTopClean(rows, t, text, nonEmpty)
    ensures PRunPost(p, SeesHat(rows, s0, t), text, nonEmpty, PTop(rows, t, text, nonEmpty).1)
  {
    PStart(rows, s0, t);
    var t1 := if t.reset then MakeInit(rows, t, true) else t;
    var s := if t.reset then t1.curstat else t.initstat;
    var hat := SeesHat(rows, s0, t);
    if nonEmpty && text == [] {
      NoneAtAll(p, hat, text, 0, -1, nonEmpty);
    } else {
      RecognisesReads(rows, s0, p, hat, text);
      PRunAnswer(rows, s0, p, hat, t1, s, text, 0, -1, nonEmpty, PRun(rows, t1, s, text, 0, -1, nonEmpty));
    }
  }

  lemma {:induction false} ScanLength(rows: seq<Row>, t: Table, s: nat, w: seq<Symbol>, q: nat, patlen: int)
    requires Shape(t) && s < NSTATES && Bytes(w) && w != []
    ensures ScanRun(rows, t, s, w, q, patlen).1 == patlen || ScanRun(rows, t, s, w, q, patlen).1 >= 0
    decreases w
  {
    hide Look;
    var (t', s') := Look(rows, t, s, w[0]);
    if s' != 1 && |w| > 1 { ScanLength(rows, t', s', w[1..], q + 1, if t.out[s] then q else patlen); }
  }

  lemma {:induction false} RunLength(rows: seq<Row>, t: Table, s: nat, text: seq<Symbol>, i: nat, patlen: int,
                                     nonEmpty: bool)
    requires Shape(t) && s < NSTATES && IsText(text) && i <= |text| && -1 <= patlen < Least(nonEmpty)
    ensures var a := PRun(rows, t, s, text, i, patlen, nonEmpty).1;
            !a.found ==> a.patbeg == 0 && -1 <= a.patlen < Least(nonEmpty)
    decreases |text| - i
  {
    hide ScanRun, Restart;
    var w := text[i..] + [NUL];
    ScanLength(rows, t, s, w, 0, patlen);
    var (t1, len) := ScanRun(rows, t, s, w, 0, patlen);
    if !(len >= Least(nonEmpty) || i == |text| || (nonEmpty && i + 1 == |text|)) {
      RunLength(rows, Restart(t1), 2, text, i + 1, len, nonEmpty);
    }
  }

  /** A call that finds nothing leaves a length that is no match: -1, or 0 for `nematch`. */
  lemma NotFoundLength(rows: seq<Row>, t: Table, text: seq<Symbol>, nonEmpty: bool)
    requires Shape(t) && t.initstat < NSTATES && IsText(text) && |rows| > 0
    ensures var a := PTop(rows, t, text, nonEmpty).1;
            !a.found ==> (!nonEmpty ==> a.patbeg == 0) && -1 <= a.patlen < if nonEmpty then 1 else 0
  {
    hide MakeInit;
    var t1 := if t.reset then MakeInit(rows, t, true) else t;
    var s := if t.reset then t1.curstat else t.initstat;
    if !(nonEmpty && text == []) { RunLength(rows, t1, s, text, 0, -1, nonEmpty); }
  }

  /** Both theorems about one call. */
  lemma PTopTheorem(rows: seq<Row>, s0: set<nat>, p: Re, t: Table, text: seq<Symbol>, nonEmpty: bool, t': Table,
                    a: Answer)
    requires Recognises(rows, s0, p) && Usable(rows, s0, t) && IsText(text)
    requires t' == PTop(rows, t, text, nonEmpty).0 && a == PTop(rows, t, text, nonEmpty).1
    ensures Usable(rows, s0, t')
    ensures PTopClean(rows, t, text, nonEmpty) ==> PRunPost(p, SeesHat(rows, s0, t), text, nonEmpty, a)
  {
    PTopKeeps(rows, s0, t, text, nonEmpty);
    if PTopClean(rows, t, text, nonEmpty) { PTopRight(rows, s0, p, t, text, nonEmpty); }
  }

  /** How `^` is lost: a call that flushed and restarted leaves `initstat` at state 2; the
      next call still rebuilds the state after HAT; if that one does not flush, all later
      calls search as if nothing could match at the beginning of the text only. */
  lemma HatIsLost(rows: seq<Row>, s0: set<nat>, p: Re, t: Table, text: seq<Symbol>, next: seq<Symbol>, nonEmpty: bool,
                  t': Table)
    requires Recognises(rows, s0, p) && Usable(rows, s0, t) && IsText(text) && IsText(next)
    requires t.reset && t.initstat != HatState(rows, s0)
    requires t' == PTop(rows, t, text, nonEmpty).0 && Usable(rows, s0, t') && !t'.reset &&
             PTopClean(rows, t', next, nonEmpty)
    ensures SeesHat(rows, s0, t) && !SeesHat(rows, s0, t')
    ensures PRunPost(p, false, next, nonEmpty, PTop(rows, t', next, nonEmpty).1)
  {
    PTopKeeps(rows, s0, t, text, nonEmpty);
    PTopRight(rows, s0, p, t', next, nonEmpty);
  }
}
