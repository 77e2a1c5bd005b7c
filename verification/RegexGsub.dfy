/** awk's `gsub` on top of `pmatch`: it replaces, from left to right, what a walk over the
    text from position to position would replace. */
module RegexGsub {
  import opened RegexTree
  import opened RegexAutomaton
  import opened RegexTable
  import opened RegexRun
  import opened RegexMatch
  import opened RegexScan
  import opened RegexMachine

  const AMP: Symbol := 38
  const BACKSLASH: Symbol := 92

  // ----- The replacement text.

  /** What `backsub` writes for a backslash at the head of `r`, and how far it moves on. */
  function Backsub(r: seq<Symbol>): (w: (seq<Symbol>, nat))
    requires r != [] && r[0] == BACKSLASH
    ensures 0 < w.1 <= |r|
  {
    if |r| > 1 && r[1] == BACKSLASH then
      if |r| > 3 && r[2] == BACKSLASH && r[3] == AMP then ([BACKSLASH, AMP], 4)
      else if |r| > 2 && r[2] == AMP then ([BACKSLASH], 2)
      else ([BACKSLASH, BACKSLASH], 2)
    else if |r| > 1 && r[1] == AMP then ([AMP], 2)
    else ([BACKSLASH], 1)
  }

  /** The replacement `r` for a match of the text `m`. */
  function Substitute(r: seq<Symbol>, m: seq<Symbol>): seq<Symbol>
    decreases |r|
  {
    if r == [] then []
    else if r[0] == BACKSLASH then Backsub(r).0 + Substitute(r[Backsub(r).1..], m)
    else if r[0] == AMP then m + Substitute(r[1..], m)
    else [r[0]] + Substitute(r[1..], m)
  }

  /** A replacement without special characters stands for itself. */
  lemma {:induction false} SubstituteLiteral(r: seq<Symbol>, m: seq<Symbol>)
    requires BACKSLASH !in r && AMP !in r
    ensures Substitute(r, m) == r
  {
    if r != [] { SubstituteLiteral(r[1..], m); }
  }

  // ----- The walk that says what is to be replaced.

  ghost predicate IsLongest(p: Re, hat: bool, text: seq<Symbol>, i: nat, n: nat) {
    MatchesAt(p, hat, text, i, n) && forall k: nat :: MatchesAt(p, hat, text, i, k) ==> k <= n
  }

  /** The longest match that starts at `i`, -1 if there is none. */
  ghost function LengthAt(p: Re, hat: bool, text: seq<Symbol>, i: nat): (r: int)
    ensures -1 <= r <= |text|
    ensures r >= 0 ==> i + r <= |text|
  {
    if exists n: nat :: IsLongest(p, hat, text, i, n) then
      var n: nat :| IsLongest(p, hat, text, i, n); n
    else -1
  }

  /** The longest match at every position of the text, its end included. */
  ghost function Lengths(p: Re, hat: bool, text: seq<Symbol>): (lens: seq<int>)
    ensures LensOk(lens, text)
  {
    seq(|text| + 1, i requires 0 <= i <= |text| => LengthAt(p, hat, text, i))
  }

  /** One length for every position: -1 where nothing matches, never past the end. */
  predicate LensOk(lens: seq<int>, text: seq<Symbol>) {
    |lens| == |text| + 1 && forall i :: 0 <= i <= |text| ==> -1 <= lens[i] <= |text| - i
  }

  function CharAt(text: seq<Symbol>, i: nat): seq<Symbol> {
    if i < |text| then [text[i]] else []
  }

  /** What replaces a match, as a function of the text matched. */
  type Filler = seq<Symbol> -> seq<Symbol>

  function Fill(r: seq<Symbol>): Filler {
    m => Substitute(r, m)
  }

  /** Walk from `i` on: replace the longest match that starts here; an empty one is left
      alone directly after a match that was not empty (`after`). Result and count. */
  function Rewritten(lens: seq<int>, text: seq<Symbol>, f: Filler, i: nat, after: bool): (seq<Symbol>, nat)
    requires LensOk(lens, text)
    decreases |text| + 1 - i
  {
    if i > |text| then ([], 0)
    else
      var n := lens[i];
      if n > 0 then
        var (w, k) := Rewritten(lens, text, f, i + n, true);
        (f(text[i..i + n]) + w, k + 1)
      else
        var (w, k) := Rewritten(lens, text, f, i + 1, false);
        if n == 0 && !after then (f([]) + CharAt(text, i) + w, k + 1)
        else (CharAt(text, i) + w, k)
  }

  lemma LengthIs(p: Re, hat: bool, text: seq<Symbol>, i: nat, n: nat)
    requires IsLongest(p, hat, text, i, n)
    ensures LengthAt(p, hat, text, i) == n
  {
    var k: nat :| IsLongest(p, hat, text, i, k) && LengthAt(p, hat, text, i) == k;
  }

  /** Nothing starts at the positions from `i` up to `j`. */
  predicate NoneIn(lens: seq<int>, i: nat, j: nat)
    requires i <= j <= |lens|
  {
    forall k :: i <= k < j ==> lens[k] == -1
  }

  /** Where no match starts, the walk copies. */
  lemma {:induction false} WalkCopies(lens: seq<int>, text: seq<Symbol>, f: Filler, i: nat, j: nat, after: bool)
    requires LensOk(lens, text) && i <= j <= |text| && NoneIn(lens, i, j)
    ensures var w := Rewritten(lens, text, f, j, after && i == j);
            Rewritten(lens, text, f, i, after) == (text[i..j] + w.0, w.1)
    decreases j - i
  {
    if i == j {
      assert text[i..j] + Rewritten(lens, text, f, j, after).0 == Rewritten(lens, text, f, j, after).0;
    } else {
      WalkCopies(lens, text, f, i + 1, j, false);
      CopyOne(text, i, j, Rewritten(lens, text, f, j, false).0);
    }
  }

  lemma CopyOne(text: seq<Symbol>, i: nat, j: nat, w: seq<Symbol>)
    requires i < j <= |text|
    ensures CharAt(text, i) + (text[i + 1..j] + w) == text[i..j] + w
  {
  }

  lemma WalkEnds(lens: seq<int>, text: seq<Symbol>, f: Filler, i: nat, after: bool)
    requires LensOk(lens, text) && i <= |text| && NoneIn(lens, i, |lens|)
    ensures Rewritten(lens, text, f, i, after) == (text[i..], 0)
  {
    var e := |text|;
    WalkCopies(lens, text, f, i, e, after);
    assert Rewritten(lens, text, f, e, after && i == e) == ([], 0);
    assert text[i..e] + [] == text[i..];
  }

  // ----- A match in the rest of the text is a match in the text.

  lemma MatchesInRest(p: Re, hat: bool, hat': bool, text: seq<Symbol>, pos: nat, i: nat, n: int)
    requires pos <= |text|
    requires pos > 0 ==> !hat' || HatMakesNoDifference(p)
    requires pos == 0 ==> hat == hat'
    requires IsText(text)
    ensures MatchesAt(p, hat', text[pos..], i, n) <==> MatchesAt(p, hat, text, pos + i, n)
  {
    var rest := text[pos..];
    if 0 <= n && pos + i + n <= |text| {
      assert rest[i..i + n] == text[pos + i..pos + i + n];
      var w := rest[i..i + n];
      assert Text(w) && Text(w + [NUL]);
    }
  }

  ghost predicate HatMakesNoDifference(p: Re) {
    forall w :: Text(w) ==> (MatchesWord(p, true, w) <==> MatchesWord(p, false, w))
  }

  lemma PlainStartIgnoresHat(rows: seq<Row>, s0: set<nat>, p: Re)
    requires Recognises(rows, s0, p) && HatState(rows, s0) == 2
    ensures HatMakesNoDifference(p)
  {
    forall w | Text(w) ensures MatchesWord(p, true, w) <==> MatchesWord(p, false, w) {
      assert Accepts(rows, s0, w) <==> MatchesWord(p, false, w);
      assert Accepts(rows, AfterHat(rows, s0), w) <==> MatchesWord(p, true, w);
    }
  }

  /** An empty leftmost-longest match before the end of the text is at its front. */
  lemma EmptyIsFirst(p: Re, hat: bool, text: seq<Symbol>, a: Answer)
    requires LeftmostLongest(p, hat, text, a) && a.patlen == 0 && a.patbeg < |text|
    ensures a.patbeg == 0
  {
    if a.patbeg > 0 { EmptyAnywhere(p, hat, text, a.patbeg); }
  }

  lemma EmptyAnywhere(p: Re, hat: bool, text: seq<Symbol>, i: nat)
    requires MatchesAt(p, hat, text, i, 0) && 0 < i < |text|
    ensures MatchesAt(p, hat, text, 0, 0)
  {
    assert text[i..i + 0] == [] && text[0..0] == [];
  }

  // ----- When the calls of one gsub are right.

  /** Where the next search starts, and whether there is one. */
  function NextStart(text: seq<Symbol>, pos: nat, a: Answer): (r: (nat, bool)) {
    var beg := pos + a.patbeg;
    if a.patlen == 0 && beg < |text| then (pos + 1, true)
    else (beg + Max0(a.patlen), a.patlen != 0 && beg + Max0(a.patlen) != |text|)
  }

  function Max0(n: int): nat {
    if n < 0 then 0 else n
  }

  /** No call follows a wrong entry, and no flush is pending between two calls, unless `^` leads
      nowhere new at the beginning (as when there is none: `NoHatPlainStart`). */
  predicate GsubClean(rows: seq<Row>, s0: set<nat>, t: Table, text: seq<Symbol>, pos: nat)
    requires Shape(t) && t.initstat < NSTATES && IsText(text) && |rows| > 0 && pos <= |text|
    decreases |text| - pos
  {
    && PTopClean(rows, t, text[pos..], false)
    && var (t', a) := PTop(rows, t, text[pos..], false);
       a.found ==>
         var (next, more) := NextStart(text, pos, a);
         more && pos < next <= |text| ==>
           (!t'.reset || HatState(rows, s0) == 2) && GsubClean(rows, s0, t'.(initstat := 2), text, next)
  }

  /** In all calls every state has the positions that the automaton has there, `^` being read in
      front of the text at most. */
  predicate GsubTrue(rows: seq<Row>, s0: set<nat>, hat: bool, t: Table, text: seq<Symbol>, pos: nat)
    requires Shape(t) && t.initstat < NSTATES && IsText(text) && |rows| > 0 && pos <= |text|
    decreases |text| - pos
  {
    && PTopTrue(rows, s0, hat, t, text[pos..], false)
    && var (t', a) := PTop(rows, t, text[pos..], false);
       a.found ==>
         var (next, more) := NextStart(text, pos, a);
         more && pos < next <= |text| ==> GsubTrue(rows, s0, false, t'.(initstat := 2), text, next)
  }

  /** A call that must not see `^`. */
  lemma InnerTrueIff(rows: seq<Row>, s0: set<nat>, t: Table, text: seq<Symbol>)
    requires Starts(rows, s0) && Usable(rows, s0, t) && t.initstat == 2 && IsText(text)
    ensures PTopTrue(rows, s0, false, t, text, false) <==>
            (!t.reset || HatState(rows, s0) == 2) && PTopClean(rows, t, text, false)
  {
    PTopTrueIff(rows, s0, t, text, false);
    if PTopTrue(rows, s0, false, t, text, false) { PTopStartsTrue(rows, s0, false, t, text); }
    if HatState(rows, s0) == 2 {
      var t1 := if t.reset then MakeInit(rows, t, true) else t;
      PTrueEither(rows, s0, false, t1, if t.reset then t1.curstat else t.initstat, text, 0, -1, false);
    }
  }

  lemma {:induction false} RestTrueIff(rows: seq<Row>, s0: set<nat>, t: Table, text: seq<Symbol>, pos: nat)
    requires Starts(rows, s0) && Usable(rows, s0, t) && t.initstat == 2 && IsText(text) && pos <= |text|
    ensures GsubTrue(rows, s0, false, t, text, pos) <==>
            (!t.reset || HatState(rows, s0) == 2) && GsubClean(rows, s0, t, text, pos)
    decreases |text| - pos
  {
    hide PTop, PTopTrue, PTopClean;
    InnerTrueIff(rows, s0, t, text[pos..]);
    var (t', a) := PTop(rows, t, text[pos..], false);
    var (next, more) := NextStart(text, pos, a);
    PTopKeeps(rows, s0, t, text[pos..], false);
    UsableAgain(rows, s0, t', 2);
    if a.found && more && pos < next <= |text| { RestTrueIff(rows, s0, t'.(initstat := 2), text, next); }
  }

  /** MAIN: the call is like that exactly if every state that its searches visit has the true
      positions. */
  lemma GsubTrueIff(rows: seq<Row>, s0: set<nat>, t: Table, text: seq<Symbol>)
    requires Starts(rows, s0) && Usable(rows, s0, t) && IsText(text)
    ensures GsubTrue(rows, s0, SeesHat(rows, s0, t), t, text, 0) <==> GsubClean(rows, s0, t, text, 0)
  {
    hide PTop, PTopTrue, PTopClean;
    PTopTrueIff(rows, s0, t, text[0..], false);
    var (t', a) := PTop(rows, t, text[0..], false);
    var (next, more) := NextStart(text, 0, a);
    PTopKeeps(rows, s0, t, text[0..], false);
    UsableAgain(rows, s0, t', 2);
    if a.found && more && 0 < next <= |text| { RestTrueIff(rows, s0, t'.(initstat := 2), text, next); }
  }

  // ----- One round of the loop.

  lemma {:induction false} ScanRunBound(rows: seq<Row>, t: Table, s: nat, w: seq<Symbol>, q: nat, patlen: int)
    requires Shape(t) && s < NSTATES && Bytes(w) && w != []
    ensures var r := ScanRun(rows, t, s, w, q, patlen).1; r == patlen || q <= r < q + |w|
    decreases w
  {
    var (t', s') := Look(rows, t, s, w[0]);
    if s' != 1 && |w| > 1 { ScanRunBound(rows, t', s', w[1..], q + 1, if t.out[s] then q else patlen); }
  }

  lemma {:induction false} PRunBound(rows: seq<Row>, t: Table, s: nat, text: seq<Symbol>, i: nat, patlen: int)
    requires Shape(t) && s < NSTATES && IsText(text) && i <= |text| && patlen < 0
    ensures var a := PRun(rows, t, s, text, i, patlen, false).1; a.found ==>
              0 <= a.patlen && a.patbeg + a.patlen <= |text|
    decreases |text| - i
  {
    var (t1, len) := ScanRun(rows, t, s, text[i..] + [NUL], 0, patlen);
    ScanRunBound(rows, t, s, text[i..] + [NUL], 0, patlen);
    if len < 0 && i != |text| {
      PRunNext(rows, t, s, text, i, patlen, false, t1, len, Restart(t1));
      PRunBound(rows, Restart(t1), 2, text, i + 1, len);
    }
  }

  /** Whatever the table says, a match that is reported lies in the text. */
  lemma PTopBound(rows: seq<Row>, t: Table, text: seq<Symbol>)
    requires Shape(t) && t.initstat < NSTATES && IsText(text) && |rows| > 0
    ensures var a := PTop(rows, t, text, false).1; a.found ==> 0 <= a.patlen && a.patbeg + a.patlen <= |text|
  {
    var t1 := if t.reset then MakeInit(rows, t, true) else t;
    PRunBound(rows, t1, if t.reset then t1.curstat else t.initstat, text, 0, -1);
  }

  /** The answer for the rest of the text, as a statement about the whole text. */
  predicate RightFrom(lens: seq<int>, text: seq<Symbol>, pos: nat, a: Answer)
    requires LensOk(lens, text) && pos <= |text|
  {
    if a.found then
      && 0 <= a.patlen && pos + a.patbeg <= |text|
      && lens[pos + a.patbeg] == a.patlen
      && NoneIn(lens, pos, pos + a.patbeg)
      && (a.patlen == 0 && pos + a.patbeg < |text| ==> a.patbeg == 0)
    else NoneIn(lens, pos, |lens|)
  }

  lemma AnswerInText(p: Re, hat: bool, hat': bool, text: seq<Symbol>, pos: nat, a: Answer)
    requires pos <= |text| && IsText(text) && PRunPost(p, hat', text[pos..], false, a)
    requires pos > 0 ==> !hat' || HatMakesNoDifference(p)
    requires pos == 0 ==> hat == hat'
    ensures RightFrom(Lengths(p, hat, text), text, pos, a)
  {
    var rest := text[pos..];
    if a.found {
      forall k: nat | pos <= k < pos + a.patbeg ensures LengthAt(p, hat, text, k) == -1 {
        NothingAt(p, hat, hat', text, pos, k);
      }
      LengthInRest(p, hat, hat', text, pos, a.patbeg, a.patlen);
      if a.patlen == 0 && a.patbeg < |rest| { EmptyIsFirst(p, hat', rest, a); }
    } else {
      forall k: nat | pos <= k <= |text|
        ensures LengthAt(p, hat, text, k) == -1
      {
        NothingAt(p, hat, hat', text, pos, k);
      }
    }
  }

  ghost predicate NoMatchAt(p: Re, hat: bool, text: seq<Symbol>, i: nat) {
    forall n :: !MatchesAt(p, hat, text, i, n)
  }

  lemma NothingAt(p: Re, hat: bool, hat': bool, text: seq<Symbol>, pos: nat, k: nat)
    requires pos <= k <= |text| && IsText(text) && NoMatchAt(p, hat', text[pos..], k - pos)
    requires pos > 0 ==> !hat' || HatMakesNoDifference(p)
    requires pos == 0 ==> hat == hat'
    ensures LengthAt(p, hat, text, k) == -1
  {
    forall n ensures !MatchesAt(p, hat, text, k, n) {
      MatchesInRest(p, hat, hat', text, pos, k - pos, n);
    }
  }

  lemma LengthInRest(p: Re, hat: bool, hat': bool, text: seq<Symbol>, pos: nat, i: nat, n: int)
    requires pos <= |text| && IsText(text)
    requires MatchesAt(p, hat', text[pos..], i, n) && forall m :: MatchesAt(p, hat', text[pos..], i, m) ==> m <= n
    requires pos > 0 ==> !hat' || HatMakesNoDifference(p)
    requires pos == 0 ==> hat == hat'
    ensures LengthAt(p, hat, text, pos + i) == n
  {
    MatchesInRest(p, hat, hat', text, pos, i, n);
    var k := pos + i;
    forall m: nat | MatchesAt(p, hat, text, k, m) ensures m <= n { MatchesInRest(p, hat, hat', text, pos, i, m); }
    LengthIs(p, hat, text, k, n);
  }

  /** What one round adds to the output, and where it goes on. */
  function Round(text: seq<Symbol>, f: Filler, pos: nat, after: bool, a: Answer): (seq<Symbol>, nat)
    requires pos + a.patbeg + Max0(a.patlen) <= |text|
  {
    var beg := pos + a.patbeg;
    if a.patlen == 0 && beg < |text| then
      if after then (CharAt(text, pos), 0) else (f([]) + CharAt(text, pos), 1)
    else (text[pos..beg] + f(text[beg..beg + Max0(a.patlen)]), 1)
  }

  /** What the walk does from the next start on, if there is one. */
  function Remaining(lens: seq<int>, text: seq<Symbol>, f: Filler, pos: nat, a: Answer): (seq<Symbol>, nat)
    requires LensOk(lens, text)
  {
    var (next, more) := NextStart(text, pos, a);
    if more then Rewritten(lens, text, f, next, a.patlen != 0) else ([], 0)
  }

  /** A round does what the walk does up to the next start. */
  lemma RoundWalks(lens: seq<int>, text: seq<Symbol>, f: Filler, pos: nat, after: bool, a: Answer)
    requires LensOk(lens, text) && pos <= |text| && RightFrom(lens, text, pos, a) && a.found && (after ==> pos < |text|)
    ensures var (w, k) := Round(text, f, pos, after, a); var rest := Remaining(lens, text, f, pos, a);
            Rewritten(lens, text, f, pos, after) == (w + rest.0, k + rest.1)
  {
    hide Rewritten, Round;
    var x, rest := Rewritten(lens, text, f, pos, after), Remaining(lens, text, f, pos, a);
    if a.patlen > 0 {
      MatchRound(lens, text, f, pos, pos + a.patbeg, a.patlen, after);
      GlueMatch(text, f, pos, after, a, x, rest);
    } else if pos + a.patbeg < |text| {
      EmptyRound(lens, text, f, pos, after);
      GlueEmpty(text, f, pos, after, a, x, rest);
    } else {
      EndRound(lens, text, f, pos, after);
      GlueEnd(text, f, pos, after, a, x);
    }
  }

  lemma GlueMatch(text: seq<Symbol>, f: Filler, pos: nat, after: bool, a: Answer, x: (seq<Symbol>, nat),
                  rest: (seq<Symbol>, nat))
    requires a.patlen > 0 && pos + a.patbeg + a.patlen <= |text|
    requires var beg := pos + a.patbeg; x == ((text[pos..beg] + f(text[beg..beg + a.patlen])) + rest.0, 1 + rest.1)
    ensures var (w, k) := Round(text, f, pos, after, a); x == (w + rest.0, k + rest.1)
  {
  }

  lemma GlueEmpty(text: seq<Symbol>, f: Filler, pos: nat, after: bool, a: Answer, x: (seq<Symbol>, nat),
                  rest: (seq<Symbol>, nat))
    requires a.patlen == 0 && pos + a.patbeg < |text|
    requires x == if after then (CharAt(text, pos) + rest.0, rest.1)
             else ((f([]) + CharAt(text, pos)) + rest.0, 1 + rest.1)
    ensures var (w, k) := Round(text, f, pos, after, a); x == (w + rest.0, k + rest.1)
  {
  }

  lemma GlueEnd(text: seq<Symbol>, f: Filler, pos: nat, after: bool, a: Answer, x: (seq<Symbol>, nat))
    requires a.patlen == 0 && pos + a.patbeg == |text|
    requires x == (text[pos..|text|] + f(text[|text|..|text|]), 1)
    ensures var (w, k) := Round(text, f, pos, after, a); x == (w + [], k + 0)
  {
    var w := Round(text, f, pos, after, a).0;
    assert w + [] == w;
  }

  lemma EmptyRound(lens: seq<int>, text: seq<Symbol>, f: Filler, pos: nat, after: bool)
    requires LensOk(lens, text) && pos < |text| && lens[pos] == 0
    ensures var rest := Rewritten(lens, text, f, pos + 1, false);
            Rewritten(lens, text, f, pos, after) ==
              if after then (CharAt(text, pos) + rest.0, rest.1) else ((f([]) + CharAt(text, pos)) + rest.0, 1 + rest.1)
  {
  }

  lemma EndRound(lens: seq<int>, text: seq<Symbol>, f: Filler, pos: nat, after: bool)
    requires LensOk(lens, text) && pos <= |text| && lens[|text|] == 0 && (after ==> pos < |text|) &&
             NoneIn(lens, pos, |text|)
    ensures Rewritten(lens, text, f, pos, after) ==
            (text[pos..|text|] + f(text[|text|..|text|]), 1)
  {
    var e := |text|;
    WalkCopies(lens, text, f, pos, e, after);
    AtEnd(lens, text, f);
  }

  lemma MatchRound(lens: seq<int>, text: seq<Symbol>, f: Filler, pos: nat, beg: nat, n: nat, after: bool)
    requires LensOk(lens, text) && pos <= beg <= |text| && n > 0 && lens[beg] == n && NoneIn(lens, pos, beg)
    ensures var rest := if beg + n != |text| then Rewritten(lens, text, f, beg + n, true) else ([], 0);
            Rewritten(lens, text, f, pos, after) == ((text[pos..beg] + f(text[beg..beg + n])) + rest.0, 1 + rest.1)
  {
    if beg + n == |text| { AfterLast(lens, text, f); }
    WalkCopies(lens, text, f, pos, beg, after);
    Regroup(text[pos..beg], f(text[beg..beg + n]), Rewritten(lens, text, f, beg + n, true).0);
  }

  lemma Regroup(a: seq<Symbol>, b: seq<Symbol>, c: seq<Symbol>)
    ensures a + (b + c) == (a + b) + c
  {
  }

  /** An empty match at the end of the text. */
  lemma AtEnd(lens: seq<int>, text: seq<Symbol>, f: Filler)
    requires LensOk(lens, text) && lens[|text|] == 0
    ensures Rewritten(lens, text, f, |text|, false) == (f(text[|text|..|text|]), 1)
  {
    var e := |text|;
    assert text[e..e] == [];
    assert Rewritten(lens, text, f, e + 1, false) == ([], 0);
    assert f([]) + CharAt(text, e) + [] == f([]);
  }

  /** At the end of the text nothing is replaced directly after a match. */
  lemma AfterLast(lens: seq<int>, text: seq<Symbol>, f: Filler)
    requires LensOk(lens, text)
    ensures Rewritten(lens, text, f, |text|, true) == ([], 0)
  {
    var e := |text|;
    assert lens[e] <= 0;
    assert Rewritten(lens, text, f, e + 1, false) == ([], 0);
    assert CharAt(text, e) + [] == [];
  }

  // ----- The whole call, as a run over tables.

  lemma {:induction false} ScanRunInitstat(rows: seq<Row>, t: Table, s: nat, w: seq<Symbol>, q: nat, patlen: int)
    requires Shape(t) && s < NSTATES && Bytes(w) && w != []
    ensures ScanRun(rows, t, s, w, q, patlen).0.initstat == t.initstat
    decreases w
  {
    var (t', s') := Look(rows, t, s, w[0]);
    if s' != 1 && |w| > 1 { ScanRunInitstat(rows, t', s', w[1..], q + 1, if t.out[s] then q else patlen); }
  }

  lemma {:induction false} PRunInitstat(rows: seq<Row>, t: Table, s: nat, text: seq<Symbol>, i: nat, patlen: int)
    requires Shape(t) && s < NSTATES && IsText(text) && i <= |text|
    ensures var t' := PRun(rows, t, s, text, i, patlen, false).0; t'.initstat == t.initstat || t'.initstat == 2
    decreases |text| - i
  {
    var (t1, len) := ScanRun(rows, t, s, text[i..] + [NUL], 0, patlen);
    ScanRunInitstat(rows, t, s, text[i..] + [NUL], 0, patlen);
    if len < 0 && i != |text| {
      PRunNext(rows, t, s, text, i, patlen, false, t1, len, Restart(t1));
      PRunInitstat(rows, Restart(t1), 2, text, i + 1, len);
    }
  }

  lemma PTopInitstat(rows: seq<Row>, t: Table, text: seq<Symbol>)
    requires Shape(t) && t.initstat < NSTATES && IsText(text) && |rows| > 0
    ensures var t' := PTop(rows, t, text, false).0; t'.initstat == t.initstat || t'.initstat == 2
  {
    var t1 := if t.reset then MakeInit(rows, t, true) else t;
    PRunInitstat(rows, t1, if t.reset then t1.curstat else t.initstat, text, 0, -1);
  }

  /** A search of the rest of the text from a position on: it takes a table and leaves one. */
  type Search = (Table, nat) -> (Table, Answer)

  /** What a run leaves: the table, what was written, how many were replaced. */
  datatype Output = Output(table: Table, buf: seq<Symbol>, num: nat)

  predicate Fits(text: seq<Symbol>, pos: nat, a: Answer) {
    a.found ==> 0 <= a.patlen && pos + a.patbeg + a.patlen <= |text|
  }

  /** Matches that a search reports lie in the text. */
  ghost predicate AlwaysFits(search: Search, text: seq<Symbol>) {
    forall s: Table, n: nat :: n <= |text| ==> Fits(text, n, search(s, n).1)
  }

  /** The loop, with the answer `a` for the rest from `pos` at hand: the table it leaves, the
      output and the count. */
  function GsubLoop(search: Search, s: Table, text: seq<Symbol>, f: Filler, pos: nat, after: bool, a: Answer): Output
    requires AlwaysFits(search, text) && a.found && Fits(text, pos, a)
    decreases |text| - pos
  {
    var (w, k) := Round(text, f, pos, after, a);
    var (next, more) := NextStart(text, pos, a);
    if !more then Output(s, w, k)
    else
      var (s', a') := search(s, next);
      if !a'.found then Output(s', w + text[next..], k)
      else Append(w, k, GsubLoop(search, s', text, f, next, a.patlen != 0, a'))
  }

  /** What was written before a run that goes on. */
  function Append(w: seq<Symbol>, k: nat, g: Output): Output {
    Output(g.table, w + g.buf, k + g.num)
  }

  /** Every answer of the loop is right for the text, from the one at hand on. */
  predicate AnswersRight(search: Search, lens: seq<int>, s: Table, text: seq<Symbol>, pos: nat, a: Answer)
    requires AlwaysFits(search, text) && LensOk(lens, text) && a.found && Fits(text, pos, a)
    decreases |text| - pos
  {
    && RightFrom(lens, text, pos, a)
    && var (next, more) := NextStart(text, pos, a);
       more ==>
         var (s', a') := search(s, next);
         if a'.found then AnswersRight(search, lens, s', text, next, a') else RightFrom(lens, text, next, a')
  }

  /** With right answers the loop does what the walk does, whatever search it uses. */
  lemma {:induction false} GsubLoopWalks(search: Search, lens: seq<int>, s: Table, text: seq<Symbol>, f: Filler,
                                         pos: nat, after: bool, a: Answer)
    requires AlwaysFits(search, text) && LensOk(lens, text) && a.found && Fits(text, pos, a) && (after ==> pos < |text|)
    requires AnswersRight(search, lens, s, text, pos, a)
    ensures var r := GsubLoop(search, s, text, f, pos, after, a); (r.buf, r.num) == Rewritten(lens, text, f, pos, after)
    decreases |text| - pos
  {
    hide Rewritten, Round;
    var (w, k) := Round(text, f, pos, after, a);
    var (next, more) := NextStart(text, pos, a);
    RoundWalks(lens, text, f, pos, after, a);
    if more {
      var (s', a') := search(s, next);
      if a'.found {
        GsubLoopWalks(search, lens, s', text, f, next, a.patlen != 0, a');
      } else {
        WalkEnds(lens, text, f, next, a.patlen != 0);
      }
    } else {
      assert w + [] == w;
    }
  }

  // ----- The search is `pmatch`.

  /** `pmatch` on the rest of the text. */
  function Pmatcher(rows: seq<Row>, text: seq<Symbol>): Search
    requires IsText(text) && |rows| > 0
  {
    (t: Table, n: nat) =>
      if Shape(t) && t.initstat < NSTATES && n <= |text| then PTop(rows, t, text[n..], false)
      else (t, Answer(false, 0, 0))
  }

  /** Mentioned where a particular call matters. */
  predicate Asked(rows: seq<Row>, text: seq<Symbol>, t: Table, n: nat) {
    n <= |text|
  }

  /** `search` is `pmatch` on the rest of the text. */
  ghost predicate SearchesWith(search: Search, rows: seq<Row>, text: seq<Symbol>) {
    && IsText(text) && |rows| > 0 && AlwaysFits(search, text)
    && (forall t: Table, n: nat {:trigger Asked(rows, text, t, n)} ::
          Asked(rows, text, t, n) && Shape(t) && t.initstat < NSTATES ==>
              search(t, n) == PTop(rows, t, text[n..], false))
  }

  lemma PmatcherSearches(rows: seq<Row>, text: seq<Symbol>)
    requires IsText(text) && |rows| > 0
    ensures SearchesWith(Pmatcher(rows, text), rows, text)
  {
    PmatcherFits(rows, text);
  }

  lemma PmatcherFits(rows: seq<Row>, text: seq<Symbol>)
    requires IsText(text) && |rows| > 0
    ensures AlwaysFits(Pmatcher(rows, text), text)
  {
    forall t: Table, n: nat | n <= |text| ensures Fits(text, n, Pmatcher(rows, text)(t, n).1) {
      if Shape(t) && t.initstat < NSTATES { PTopBound(rows, t, text[n..]); }
    }
  }

  function GsubTop(rows: seq<Row>, t: Table, text: seq<Symbol>, f: Filler): Output
    requires Shape(t) && t.initstat < NSTATES && IsText(text) && |rows| > 0
  {
    PmatcherFits(rows, text);
    var search := Pmatcher(rows, text);
    var (t', a) := search(t, 0);
    if !a.found then Output(t', text, 0)
    else
      var g := GsubLoop(search, t'.(initstat := 2), text, f, 0, false, a);
      g.(table := g.table.(initstat := t'.initstat))
  }

  /** What is right about the call at `next`: the answer, as a statement about the text. */
  lemma NextAnswer(rows: seq<Row>, s0: set<nat>, p: Re, hat: bool, t: Table, text: seq<Symbol>, next: nat, t': Table,
                   a': Answer)
    requires Recognises(rows, s0, p) && Usable(rows, s0, t) && t.initstat == 2 && IsText(text) && 0 < next <= |text|
    requires !t.reset || HatState(rows, s0) == 2
    requires PTopClean(rows, t, text[next..], false) && (t', a') == PTop(rows, t, text[next..], false)
    ensures Usable(rows, s0, t') && t'.initstat == 2 && RightFrom(Lengths(p, hat, text), text, next, a')
  {
    PTopInitstat(rows, t, text[next..]);
    PTopTheorem(rows, s0, p, t, text[next..], false, t', a');
    if SeesHat(rows, s0, t) { PlainStartIgnoresHat(rows, s0, p); }
    AnswerInText(p, hat, SeesHat(rows, s0, t), text, next, a');
  }

  lemma {:induction false} CleanAnswersRight(rows: seq<Row>, s0: set<nat>, p: Re, hat: bool, t: Table,
                                             text: seq<Symbol>, pos: nat, a: Answer)
    requires Recognises(rows, s0, p) && Usable(rows, s0, t) && t.initstat == 2 && IsText(text)
    requires a.found && Fits(text, pos, a) && RightFrom(Lengths(p, hat, text), text, pos, a)
    requires var (next, more) := NextStart(text, pos, a);
             more ==> (!t.reset || HatState(rows, s0) == 2) && GsubClean(rows, s0, t, text, next)
    requires AlwaysFits(Pmatcher(rows, text), text)
    ensures AnswersRight(Pmatcher(rows, text), Lengths(p, hat, text), t, text, pos, a)
    decreases |text| - pos
  {
    var (next, more) := NextStart(text, pos, a);
    if more {
      PTopBound(rows, t, text[next..]);
      var (t', a') := PTop(rows, t, text[next..], false);
      NextAnswer(rows, s0, p, hat, t, text, next, t', a');
      assert t'.(initstat := 2) == t';
      if a'.found { CleanAnswersRight(rows, s0, p, hat, t', text, next, a'); }
    }
  }

  lemma UsableAgain(rows: seq<Row>, s0: set<nat>, t: Table, i: nat)
    requires |rows| > 0 && Usable(rows, s0, t) && (i == 2 || i == HatState(rows, s0))
    ensures Usable(rows, s0, t.(initstat := i))
  {
    var t' := t.(initstat := i);
    forall q: nat | Live(t', q) ensures StateOk(rows, t', q) { assert StateOk(rows, t, q); }
    forall q: nat, r: nat | Live(t', q) && Live(t', r) && q != r ensures Differ(t', q, r) { assert Differ(t, q, r); }
    forall q: nat, c: nat | Live(t', q) && c < HAT ensures EntryLive(t', q, c) { assert EntryLive(t, q, c); }
    forall c: nat | c < HAT ensures EntryOk(rows, t', 1, c) { assert EntryOk(rows, t, 1, c); }
    if !t.reset {
      forall q: nat, c: nat | Live(t', q) && c < HAT ensures EntryOk(rows, t', q, c) { assert EntryOk(rows, t, q, c); }
    }
  }

  /** MAIN: `gsub` replaces what the walk over the positions of the text replaces, and counts
      it, as long as no call follows a wrong entry or sees `^` again after a flush. */
  lemma GsubRight(rows: seq<Row>, s0: set<nat>, p: Re, t: Table, text: seq<Symbol>, f: Filler)
    requires Recognises(rows, s0, p) && Usable(rows, s0, t) && IsText(text) && GsubClean(rows, s0, t, text, 0)
    ensures var r := GsubTop(rows, t, text, f);
            (r.buf, r.num) == Rewritten(Lengths(p, SeesHat(rows, s0, t), text), text, f, 0, false)
  {
    var lens := Lengths(p, SeesHat(rows, s0, t), text);
    var search := Pmatcher(rows, text);
    PmatcherFits(rows, text);
    var (t', a) := PTop(rows, t, text, false);
    assert text[0..] == text;
    assert search(t, 0) == (t', a);
    FirstAnswer(rows, s0, p, t, text, t', a);
    if a.found {
      GsubLoopWalks(search, lens, t'.(initstat := 2), text, f, 0, false, a);
    } else {
      WalkEnds(lens, text, f, 0, false);
    }
  }

  lemma FirstAnswer(rows: seq<Row>, s0: set<nat>, p: Re, t: Table, text: seq<Symbol>, t': Table, a: Answer)
    requires Recognises(rows, s0, p) && Usable(rows, s0, t) && IsText(text) && GsubClean(rows, s0, t, text, 0)
    requires (t', a) == PTop(rows, t, text, false) && Fits(text, 0, a) && AlwaysFits(Pmatcher(rows, text), text)
    ensures var lens := Lengths(p, SeesHat(rows, s0, t), text);
            if a.found then AnswersRight(Pmatcher(rows, text), lens, t'.(initstat := 2), text, 0, a)
            else RightFrom(lens, text, 0, a)
  {
    var hat := SeesHat(rows, s0, t);
    assert text[0..] == text;
    PTopTheorem(rows, s0, p, t, text, false, t', a);
    AnswerInText(p, hat, hat, text, 0, a);
    UsableAgain(rows, s0, t', 2);
    if a.found { CleanAnswersRight(rows, s0, p, hat, t'.(initstat := 2), text, 0, a); }
  }

  // ----- The program.

  /** Copy the replacement for a match of the text `m`. */
  method CopyReplacement(r: seq<Symbol>, m: seq<Symbol>) returns (w: seq<Symbol>)
    ensures w == Substitute(r, m)
  {
    w := [];
    var i := 0;
    while i < |r|
      invariant i <= |r| && Substitute(r, m) == w + Substitute(r[i..], m)
      decreases |r| - i
    {
      assert r[i..][0] == r[i] && r[i..][1..] == r[i + 1..];
      if r[i] == BACKSLASH {
        var b, n := CopyBackslash(r, i);
        assert r[i..][n..] == r[i + n..];
        Regroup(w, b, Substitute(r[i + n..], m));
        w, i := w + b, i + n;
      } else if r[i] == AMP {
        Regroup(w, m, Substitute(r[i + 1..], m));
        w, i := w + m, i + 1;
      } else {
        Regroup(w, [r[i]], Substitute(r[i + 1..], m));
        w, i := w + [r[i]], i + 1;
      }
    }
    assert w + [] == w;
  }

  /** The variations of backslash and ampersand. */
  method CopyBackslash(r: seq<Symbol>, i: nat) returns (b: seq<Symbol>, n: nat)
    requires i < |r| && r[i] == BACKSLASH
    ensures (b, n) == Backsub(r[i..])
  {
    if i + 1 < |r| && r[i + 1] == BACKSLASH {
      if i + 3 < |r| && r[i + 2] == BACKSLASH && r[i + 3] == AMP {
        b, n := [BACKSLASH, AMP], 4;
      } else if i + 2 < |r| && r[i + 2] == AMP {
        b, n := [BACKSLASH], 2;
      } else {
        b, n := [r[i], r[i + 1]], 2;
      }
    } else if i + 1 < |r| && r[i + 1] == AMP {
      b, n := [r[i + 1]], 2;
    } else {
      b, n := [r[i]], 1;
    }
  }

  /** One round: `pos` is where the rest of the text begins, `mflag` says that it begins
      directly after a match that was not empty. */
  method GsubRound(text: seq<Symbol>, r: seq<Symbol>, pos: nat, mflag: bool, a: Answer)
    returns (w: seq<Symbol>, k: nat, next: nat, more: bool)
    requires 0 <= a.patlen && pos + a.patbeg + a.patlen <= |text|
    ensures (w, k) == Round(text, Fill(r), pos, mflag, a) && (next, more) == NextStart(text, pos, a)
  {
    var patbeg := pos + a.patbeg;
    w, k := [], 0;
    if a.patlen == 0 && patbeg < |text| {
      if !mflag {
        k := 1;
        w := CopyReplacement(r, []);
      }
      assert [] + [text[pos]] == [text[pos]];
      w := w + [text[pos]];
      next, more := pos + 1, true;
    } else {
      k := 1;
      var s := CopyReplacement(r, text[patbeg..patbeg + a.patlen]);
      w := text[pos..patbeg] + s;
      next := patbeg + a.patlen;
      more := !(a.patlen == 0 || next == |text|);
    }
  }

  /** Replace every match in the text; what replaces what is said by `GsubRight`. */
  method Gsub(f: Fa, text: seq<Symbol>, r: seq<Symbol>) returns (buf: seq<Symbol>, num: nat)
    requires f.Valid() && Recognises(f.rows, f.starts, f.expr) && Usable(f.rows, f.starts, f.View()) && IsText(text)
    modifies f.gototab, f.posns, f.out, f`curstat, f`reset, f`initstat
    ensures f.Valid() && Usable(f.rows, f.starts, f.View())
    ensures Output(f.View(), buf, num) == GsubTop(f.rows, old(f.View()), text, Fill(r))
    ensures GsubClean(f.rows, f.starts, old(f.View()), text, 0) ==>
              (buf, num) ==
                  Rewritten(Lengths(f.expr, SeesHat(f.rows, f.starts, old(f.View())), text), text, Fill(r), 0, false)
  {
    ghost var t := f.View();
    PmatcherFits(f.rows, text);
    assert text[0..] == text;
    assert Fits(text, 0, Pmatcher(f.rows, text)(t, 0).1);
    var a := f.Pmatch(text);
    if !a.found {
      buf, num := text, 0;
    } else {
      buf, num := GsubFound(f, text, r, a);
    }
    if GsubClean(f.rows, f.starts, t, text, 0) { GsubRight(f.rows, f.starts, f.expr, t, text, Fill(r)); }
  }

  /** After the first match: the loop with the start state that has not read `^`. */
  method GsubFound(f: Fa, text: seq<Symbol>, r: seq<Symbol>, a: Answer) returns (buf: seq<Symbol>, num: nat)
    requires f.Valid() && Recognises(f.rows, f.starts, f.expr) && Usable(f.rows, f.starts, f.View()) && IsText(text)
    requires a.found && 0 <= a.patlen && a.patbeg + a.patlen <= |text|
    modifies f.gototab, f.posns, f.out, f`curstat, f`reset, f`initstat
    ensures f.Valid() && Usable(f.rows, f.starts, f.View())
    ensures AlwaysFits(Pmatcher(f.rows, text), text)
    ensures var g := GsubLoop(Pmatcher(f.rows, text), old(f.View()).(initstat := 2), text, Fill(r), 0, false, a);
            f.View() == g.table.(initstat := old(f.initstat)) && buf == g.buf && num == g.num
  {
    var tempstat := f.initstat;
    SetInitstat(f, 2);
    ghost var t;
    PmatcherSearches(f.rows, text);
    buf, num, t := GsubRounds(f, f.View(), Pmatcher(f.rows, text), text, r, a);
    SetInitstat(f, tempstat);
  }

  method SetInitstat(f: Fa, i: nat)
    requires f.Valid() && Usable(f.rows, f.starts, f.View()) && (i == 2 || i == HatState(f.rows, f.starts))
    modifies f`initstat
    ensures f.Valid() && Usable(f.rows, f.starts, f.View()) && f.View() == old(f.View()).(initstat := i)
  {
    ghost var t := f.View();
    UsableAgain(f.rows, f.starts, t, i);
    f.initstat := i;
    assert f.View() == t.(initstat := i);
  }

  /** An automaton between two searches of one call: `t` is its table. */
  ghost predicate Between(f: Fa, t: Table)
    reads f, f.gototab, f.posns, f.out
  {
    f.Valid() && t == f.View() && Recognises(f.rows, f.starts, f.expr) && Usable(f.rows, f.starts, t) && t.initstat == 2
  }

  /** Search the rest of the text from `next` on. */
  method NextSearch(f: Fa, ghost t: Table, ghost search: Search, text: seq<Symbol>, next: nat)
    returns (a: Answer, ghost t': Table)
    requires Between(f, t) && next <= |text| && SearchesWith(search, f.rows, text)
    modifies f.gototab, f.posns, f.out, f`curstat, f`reset, f`initstat
    ensures Between(f, t') && (t', a) == search(t, next)
  {
    assert Asked(f.rows, text, t, next);
    PTopInitstat(f.rows, t, text[next..]);
    a := f.Pmatch(text[next..]);
    t' := f.View();
  }

  method GsubRounds(f: Fa, ghost t0: Table, ghost search: Search, text: seq<Symbol>, r: seq<Symbol>, a0: Answer)
    returns (buf: seq<Symbol>, num: nat, ghost t: Table)
    requires Between(f, t0) && SearchesWith(search, f.rows, text) && a0.found && Fits(text, 0, a0)
    modifies f.gototab, f.posns, f.out, f`curstat, f`reset, f`initstat
    ensures Between(f, t) && Output(t, buf, num) == GsubLoop(search, t0, text, Fill(r), 0, false, a0)
  {
    ghost var all := GsubLoop(search, t0, text, Fill(r), 0, false, a0);
    ghost var g := all;
    var a, pos: nat, mflag, more := a0, 0, false, true;
    buf, num, t := [], 0, t0;
    AppendNothing(all);
    while more
      invariant Between(f, t) && pos <= |text| && a.found && Fits(text, pos, a)
      invariant all == Append(buf, num, g)
      invariant if more then g == GsubLoop(search, t, text, Fill(r), pos, mflag, a) else g == Output(t, [], 0)
      decreases more, |text| - pos
    {
      var w, k, next, a';
      ghost var g';
      w, k, next, a', more, t, g' := GsubOnce(f, t, search, text, r, pos, mflag, a);
      AllGoesOn(all, buf, num, g, w, k, g');
      buf, num, g := buf + w, num + k, g';
      if more { pos, mflag, a := next, a.patlen != 0, a'; }
    }
    assert buf + [] == buf;
  }

  lemma AppendNothing(g: Output)
    ensures Append([], 0, g) == g
  {
    assert [] + g.buf == g.buf;
  }

  lemma AllGoesOn(all: Output, buf: seq<Symbol>, num: nat, g: Output, w: seq<Symbol>, k: nat, g': Output)
    requires all == Append(buf, num, g) && g == Append(w, k, g')
    ensures all == Append(buf + w, num + k, g')
  {
    Regroup(buf, w, g'.buf);
  }

  /** One round and the next search. */
  method GsubOnce(f: Fa, ghost t: Table, ghost search: Search, text: seq<Symbol>, r: seq<Symbol>, pos: nat,
                  mflag: bool, a: Answer)
    returns (w: seq<Symbol>, k: nat, next: nat, a': Answer, more: bool, ghost t': Table, ghost g: Output)
    requires Between(f, t) && SearchesWith(search, f.rows, text) && a.found && Fits(text, pos, a)
    modifies f.gototab, f.posns, f.out, f`curstat, f`reset, f`initstat
    ensures Between(f, t')
    ensures more ==> pos < next <= |text| && a'.found && Fits(text, next, a')
    ensures GsubLoop(search, t, text, Fill(r), pos, mflag, a) == Append(w, k, g)
    ensures if more then g == GsubLoop(search, t', text, Fill(r), next, a.patlen != 0, a') else g == Output(t', [], 0)
  {
    w, k, next, more := GsubRound(text, r, pos, mflag, a);
    LoopOnce(search, t, text, Fill(r), pos, mflag, a);
    a', t', g := a, t, Output(t, [], 0);
    if more {
      a', t' := NextSearch(f, t, search, text, next);
      more := a'.found;
      if more {
        g := GsubLoop(search, t', text, Fill(r), next, a.patlen != 0, a');
      } else {
        w, g := w + text[next..], Output(t', [], 0);
      }
    }
    assert w + [] == w;
  }

  lemma LoopOnce(search: Search, s: Table, text: seq<Symbol>, f: Filler, pos: nat, after: bool, a: Answer)
    requires AlwaysFits(search, text) && a.found && Fits(text, pos, a)
    ensures var (w, k) := Round(text, f, pos, after, a); var (next, more) := NextStart(text, pos, a);
            var g := GsubLoop(search, s, text, f, pos, after, a);
            if !more then g == Output(s, w, k)
            else
              pos < next <= |text| && var (s', a') := search(s, next);
              if !a'.found then g == Output(s', w + text[next..], k)
              else Fits(text, next, a') && g == Append(w, k, GsubLoop(search, s', text, f, next, a.patlen != 0, a'))
  {
  }
}
