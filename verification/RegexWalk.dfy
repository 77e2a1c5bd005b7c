/** Which matches `gsub` replaces, and what text comes out, without walking over the text. */
module RegexWalk {
  import opened RegexTree
  import opened RegexGsub

  /** A match: where it begins and how long it is. */
  datatype Spot = Spot(at: nat, len: nat)

  function End(m: Spot): nat {
    m.at + m.len
  }

  /** The text with the matches replaced, from position `i` on. */
  function Spliced(text: seq<Symbol>, ms: seq<Spot>, f: Filler, i: nat): seq<Symbol>
    requires InText(text, ms, i)
    decreases |ms|
  {
    if ms == [] then (if i <= |text| then text[i..] else [])
    else
      text[i..ms[0].at] + (f(text[ms[0].at..End(ms[0])]) + Spliced(text, ms[1..], f, End(ms[0])))
  }

  /** Matches one behind the other. */
  predicate InText(text: seq<Symbol>, ms: seq<Spot>, i: nat) {
    ms != [] ==> i <= ms[0].at && End(ms[0]) <= |text| && InText(text, ms[1..], End(ms[0]))
  }

  /** Is position `j` inside a match, or does a match begin there, or does one that is not empty end
      there and only an empty one begin? */
  predicate Taken(lens: seq<int>, ms: seq<Spot>, j: nat)
    requires j < |lens|
  {
    exists k :: 0 <= k < |ms| && At(lens, ms[k], j)
  }

  predicate At(lens: seq<int>, m: Spot, j: nat)
    requires j < |lens|
  {
    m.at == j || m.at <= j < End(m) || (j == End(m) && m.len > 0 && lens[j] == 0)
  }

  /** Each is the longest match where it begins, and an empty one begins neither where another one
      has just ended nor, if `after`, at `i`. */
  predicate Allowed(lens: seq<int>, ms: seq<Spot>, i: nat, after: bool) {
    ms != [] ==>
      && ms[0].at < |lens| && lens[ms[0].at] == ms[0].len
      && (ms[0].at == i && after ==> ms[0].len > 0)
      && Allowed(lens, ms[1..], End(ms[0]), true)
  }

  /** The matches that are to be replaced from `i` on: they do not overlap, each is the longest one
      where it begins, and no other match is left, but for empty ones directly behind another. */
  ghost predicate Chosen(lens: seq<int>, text: seq<Symbol>, ms: seq<Spot>, i: nat, after: bool)
    requires LensOk(lens, text)
  {
    && InText(text, ms, i) && Allowed(lens, ms, i, after)
    && forall j: nat :: i <= j <= |text| && lens[j] >= 0 && !(j == i && after && lens[j] == 0) ==> Taken(lens, ms, j)
  }

  lemma {:induction false} SplicedSkips(text: seq<Symbol>, ms: seq<Spot>, f: Filler, i: nat)
    requires i <= |text| && InText(text, ms, i + 1)
    ensures InText(text, ms, i) && Spliced(text, ms, f, i) == CharAt(text, i) + Spliced(text, ms, f, i + 1)
  {
    if ms == [] {
      if i < |text| { assert text[i..] == [text[i]] + text[i + 1..]; } else { assert text[i..] == []; }
    } else {
      var more := f(text[ms[0].at..End(ms[0])]) + Spliced(text, ms[1..], f, End(ms[0]));
      assert text[i..ms[0].at] == [text[i]] + text[i + 1..ms[0].at];
      assert ([text[i]] + text[i + 1..ms[0].at]) + more == [text[i]] + (text[i + 1..ms[0].at] + more);
    }
  }

  lemma TakenMore(lens: seq<int>, m: Spot, ms: seq<Spot>, j: nat)
    requires j < |lens|
    ensures Taken(lens, [m] + ms, j) <==> At(lens, m, j) || Taken(lens, ms, j)
  {
    var l := [m] + ms;
    if At(lens, m, j) { assert At(lens, l[0], j); }
    if k :| 0 <= k < |ms| && At(lens, ms[k], j) { assert l[k + 1] == ms[k]; }
  }

  /** MAIN: the walk replaces the chosen matches and counts them. */
  lemma {:induction false} WalkChooses(lens: seq<int>, text: seq<Symbol>, f: Filler, i: nat, after: bool)
    returns (ms: seq<Spot>)
    requires LensOk(lens, text)
    ensures Chosen(lens, text, ms, i, after) && InText(text, ms, i)
    ensures Rewritten(lens, text, f, i, after) == (Spliced(text, ms, f, i), |ms|)
    decreases |text| + 1 - i
  {
    hide Spliced, Chosen;
    if i > |text| {
      NothingSpliced(lens, text, f, i, after);
      ms := [];
    } else if lens[i] > 0 {
      var more := WalkChooses(lens, text, f, i + lens[i], true);
      ms := LongFirst(lens, text, f, i, after, more);
    } else {
      var more := WalkChooses(lens, text, f, i + 1, false);
      ChosenInText(lens, text, more, i + 1, false);
      SplicedSkips(text, more, f, i);
      if lens[i] == 0 && !after {
        ms := EmptyFirst(lens, text, f, i, more);
      } else {
        ms := more;
        NoneFirst(lens, text, ms, i, after);
      }
    }
  }

  lemma NothingSpliced(lens: seq<int>, text: seq<Symbol>, f: Filler, i: nat, after: bool)
    requires i > |text| && LensOk(lens, text)
    ensures Spliced(text, [], f, i) == [] && Chosen(lens, text, [], i, after)
  {
  }

  lemma ChosenInText(lens: seq<int>, text: seq<Symbol>, ms: seq<Spot>, i: nat, after: bool)
    requires LensOk(lens, text) && Chosen(lens, text, ms, i, after)
    ensures InText(text, ms, i)
  {
  }

  lemma NoneFirst(lens: seq<int>, text: seq<Symbol>, ms: seq<Spot>, i: nat, after: bool)
    requires LensOk(lens, text) && i <= |text| && Chosen(lens, text, ms, i + 1, false)
    requires lens[i] < 0 || (lens[i] == 0 && after)
    ensures Chosen(lens, text, ms, i, after)
  {
    AllowedLater(lens, ms, i, after);
  }

  lemma LongFirst(lens: seq<int>, text: seq<Symbol>, f: Filler, i: nat, after: bool, more: seq<Spot>)
    returns (ms: seq<Spot>)
    requires LensOk(lens, text) && i <= |text| && lens[i] > 0 && Chosen(lens, text, more, i + lens[i], true)
    ensures InText(text, ms, i) && InText(text, more, i + lens[i])
    ensures ms == [Spot(i, lens[i])] + more && Chosen(lens, text, ms, i, after)
    ensures Spliced(text, ms, f, i) == f(text[i..i + lens[i]]) + Spliced(text, more, f, i + lens[i])
  {
    var n := lens[i];
    ms := [Spot(i, n)] + more;
    assert ms[1..] == more;
    forall j | 0 <= j < |lens| ensures Taken(lens, ms, j) <==> At(lens, Spot(i, n), j) || Taken(lens, more, j) {
      TakenMore(lens, Spot(i, n), more, j);
    }
    assert text[i..i] == [];
  }

  lemma AllowedLater(lens: seq<int>, ms: seq<Spot>, i: nat, after: bool)
    requires Allowed(lens, ms, i + 1, false) && (ms != [] ==> ms[0].at > i)
    ensures Allowed(lens, ms, i, after)
  {
  }

  lemma EmptyFirst(lens: seq<int>, text: seq<Symbol>, f: Filler, i: nat, more: seq<Spot>) returns (ms: seq<Spot>)
    requires LensOk(lens, text) && i <= |text| && lens[i] == 0 && Chosen(lens, text, more, i + 1, false)
    requires InText(text, more, i) && Spliced(text, more, f, i) == CharAt(text, i) + Spliced(text, more, f, i + 1)
    ensures ms == [Spot(i, 0)] + more && Chosen(lens, text, ms, i, false) && InText(text, ms, i)
    ensures Spliced(text, ms, f, i) == (f([]) + CharAt(text, i)) + Spliced(text, more, f, i + 1)
  {
    ms := [Spot(i, 0)] + more;
    assert ms[1..] == more;
    AllowedLater(lens, more, i, true);
    forall j | 0 <= j < |lens| ensures Taken(lens, ms, j) <==> At(lens, Spot(i, 0), j) || Taken(lens, more, j) {
      TakenMore(lens, Spot(i, 0), more, j);
    }
    assert text[i..i] == [];
  }

  /** There is only one such choice. */
  lemma {:induction false} ChosenOnce(lens: seq<int>, text: seq<Symbol>, ms: seq<Spot>, ns: seq<Spot>, i: nat,
                                      after: bool)
    requires LensOk(lens, text) && Chosen(lens, text, ms, i, after) && Chosen(lens, text, ns, i, after)
    ensures ms == ns
    decreases |ms|
  {
    if ms == [] {
      if ns != [] { FirstTaken(lens, text, ns, ms, i, after); }
    } else {
      FirstTaken(lens, text, ms, ns, i, after);
      FirstTaken(lens, text, ns, ms, i, after);
      ChosenRest(lens, text, ms, i, after);
      ChosenRest(lens, text, ns, i, after);
      ChosenOnce(lens, text, ms[1..], ns[1..], End(ms[0]), true);
      assert ms == [ms[0]] + ms[1..] && ns == [ns[0]] + ns[1..];
    }
  }

  /** A choice begins no later than any other one. */
  lemma FirstTaken(lens: seq<int>, text: seq<Symbol>, ms: seq<Spot>, ns: seq<Spot>, i: nat, after: bool)
    requires LensOk(lens, text) && Chosen(lens, text, ms, i, after) && Chosen(lens, text, ns, i, after) && ms != []
    ensures ns != [] && ns[0].at <= ms[0].at
  {
    var j := ms[0].at;
    assert Taken(lens, ns, j);
    var k :| 0 <= k < |ns| && At(lens, ns[k], j);
    InOrder(text, ns, i, k);
  }

  lemma {:induction false} InOrder(text: seq<Symbol>, ms: seq<Spot>, i: nat, k: nat)
    requires InText(text, ms, i) && k < |ms|
    ensures i <= ms[0].at <= ms[k].at && (k > 0 ==> End(ms[0]) <= ms[k].at)
    decreases k
  {
    if k > 0 { InOrder(text, ms[1..], End(ms[0]), k - 1); }
  }

  /** What is chosen behind the first match. */
  lemma ChosenRest(lens: seq<int>, text: seq<Symbol>, ms: seq<Spot>, i: nat, after: bool)
    requires LensOk(lens, text) && Chosen(lens, text, ms, i, after) && ms != []
    ensures Chosen(lens, text, ms[1..], End(ms[0]), true)
  {
    var e := End(ms[0]);
    forall j: nat | e <= j <= |text| && lens[j] >= 0 && !(j == e && lens[j] == 0) ensures Taken(lens, ms[1..], j) {
      TakenMore(lens, ms[0], ms[1..], j);
      assert ms == [ms[0]] + ms[1..];
    }
  }
}
