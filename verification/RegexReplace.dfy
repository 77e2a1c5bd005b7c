/** What a replacement text of `gsub` stands for: runs of backslashes in front of an ampersand, and
    everything else as it is. */
module RegexReplace {
  import opened RegexTree
  import opened RegexGsub

  /** A character, a run of backslashes with the ampersand behind it, or a run with anything else or
      nothing behind it. */
  datatype Piece = Plain(c: Symbol) | Ampersand(slashes: nat) | Slashes(slashes: nat)

  function Run(n: nat): (s: seq<Symbol>)
    ensures |s| == n && forall i :: 0 <= i < n ==> s[i] == BACKSLASH
  {
    if n == 0 then [] else [BACKSLASH] + Run(n - 1)
  }

  function Written(p: Piece): seq<Symbol> {
    match p
    case Plain(c) => [c]
    case Ampersand(k) => Run(k) + [AMP]
    case Slashes(k) => Run(k)
  }

  /** An ampersand behind an even number of backslashes is the text matched, and one backslash is
      dropped, if there are any; behind an odd number it is an ampersand, and two are dropped, but a
      single one alone. Other backslashes stay. */
  function Stands(p: Piece, m: seq<Symbol>): seq<Symbol> {
    match p
    case Plain(c) => [c]
    case Ampersand(k) =>
      if k == 0 then m
      else if k % 2 == 0 then Run(k - 1) + m
      else if k == 1 then [AMP]
      else Run(k - 2) + [AMP]
    case Slashes(k) => Run(k)
  }

  function AllWritten(ps: seq<Piece>): seq<Symbol> {
    if ps == [] then [] else Written(ps[0]) + AllWritten(ps[1..])
  }

  function AllStands(ps: seq<Piece>, m: seq<Symbol>): seq<Symbol> {
    if ps == [] then [] else Stands(ps[0], m) + AllStands(ps[1..], m)
  }

  /** A run of backslashes without an ampersand goes as far as it can. */
  predicate Legible(ps: seq<Piece>) {
    ps != [] ==>
      && Legible(ps[1..])
      && match ps[0]
         case Plain(c) => c != BACKSLASH && c != AMP
         case Ampersand(_) => true
         case Slashes(k) => k > 0 && (|ps| > 1 ==> ps[1].Plain?)
  }

  lemma Assoc(a: seq<Symbol>, b: seq<Symbol>, c: seq<Symbol>)
    ensures (a + b) + c == a + (b + c)
  {
  }

  /** Two backslashes with two more symbols behind them that are not one backslash and an ampersand. */
  lemma TwoMore(r: seq<Symbol>, m: seq<Symbol>)
    requires r != [] ==> r[0] != AMP
    requires |r| > 1 && r[0] == BACKSLASH ==> r[1] != AMP
    ensures Substitute(Run(2) + r, m) == Run(2) + Substitute(r, m)
  {
    var s := Run(2) + r;
    assert Run(2) == [BACKSLASH] + Run(1) && Run(1) == [BACKSLASH] + Run(0);
    assert s[0] == s[1] == BACKSLASH && s[2..] == r && (|r| > 0 ==> s[2] == r[0]) && (|r| > 1 ==> s[3] == r[1]);
  }

  lemma RunMore(n: nat, r: seq<Symbol>)
    ensures Run(n + 2) + r == Run(2) + (Run(n) + r) && Run(n + 1) + r == [BACKSLASH] + (Run(n) + r)
  {
    Assoc(Run(2), Run(n), r);
    Assoc([BACKSLASH], Run(n), r);
  }

  /** A run of backslashes in front of an ampersand. */
  lemma {:induction false} RunAmpersand(k: nat, r: seq<Symbol>, m: seq<Symbol>)
    ensures Substitute((Run(k) + [AMP]) + r, m) == Stands(Ampersand(k), m) + Substitute(r, m)
  {
    hide Substitute, Stands;
    if k < 4 {
      FewBefore(k, r, m);
    } else {
      var t := (Run(k - 2) + [AMP]) + r;
      Assoc(Run(k), [AMP], r);
      RunMore(k - 2, [AMP] + r);
      Assoc(Run(k - 2), [AMP], r);
      assert t[0] == t[1] == BACKSLASH;
      TwoMore(t, m);
      RunAmpersand(k - 2, r, m);
      TwoKept(k - 2, m, Substitute(r, m));
    }
  }

  lemma TwoKept(n: nat, m: seq<Symbol>, x: seq<Symbol>)
    requires n > 1
    ensures Run(2) + (Stands(Ampersand(n), m) + x) == Stands(Ampersand(n + 2), m) + x
  {
    if n % 2 == 0 {
      RunMore(n - 1, m);
      Assoc(Run(2), Run(n - 1) + m, x);
    } else {
      RunMore(n - 2, [AMP]);
      Assoc(Run(2), Run(n - 2) + [AMP], x);
    }
  }

  lemma FewBefore(k: nat, r: seq<Symbol>, m: seq<Symbol>)
    requires k < 4
    ensures Substitute((Run(k) + [AMP]) + r, m) == Stands(Ampersand(k), m) + Substitute(r, m)
  {
    var s := (Run(k) + [AMP]) + r;
    assert forall i :: 0 <= i < k ==> s[i] == BACKSLASH;
    assert s[k] == AMP && s[k + 1..] == r;
    if k == 2 {
      assert s[2..][0] == AMP && s[2..][1..] == r;
      assert Run(1) == [BACKSLASH];
      Assoc([BACKSLASH], m, Substitute(r, m));
    } else if k == 3 {
      assert Run(1) + [AMP] == [BACKSLASH, AMP];
    }
  }

  /** Backslashes that no ampersand follows. */
  lemma {:induction false} RunAlone(k: nat, r: seq<Symbol>, m: seq<Symbol>)
    requires r != [] ==> r[0] != AMP && r[0] != BACKSLASH
    ensures Substitute(Run(k) + r, m) == Run(k) + Substitute(r, m)
  {
    if k == 0 {
      assert [] + r == r && [] + Substitute(r, m) == Substitute(r, m);
    } else if k == 1 {
      var s := Run(1) + r;
      assert s[0] == BACKSLASH && s[1..] == r && Run(1) == [BACKSLASH];
    } else {
      var t := Run(k - 2) + r;
      RunMore(k - 2, r);
      assert k > 2 ==> t[0] == BACKSLASH;
      assert k > 3 ==> t[1] == BACKSLASH;
      assert k == 3 && r != [] ==> t[1] == r[0];
      TwoMore(t, m);
      RunAlone(k - 2, r, m);
      RunMore(k - 2, Substitute(r, m));
    }
  }

  /** MAIN: what a replacement stands for. */
  lemma {:induction false} SubstituteStands(ps: seq<Piece>, m: seq<Symbol>)
    requires Legible(ps)
    ensures Substitute(AllWritten(ps), m) == AllStands(ps, m)
  {
    if ps != [] {
      var r := AllWritten(ps[1..]);
      SubstituteStands(ps[1..], m);
      match ps[0]
      case Plain(c) => assert ([c] + r)[1..] == r;
      case Ampersand(k) => RunAmpersand(k, r, m);
      case Slashes(k) =>
        if ps[1..] != [] { assert r[0] == ps[1].c; }
        RunAlone(k, r, m);
    }
  }

  /** How many backslashes there are at the head of `r`. */
  lemma {:induction false} RunOf(r: seq<Symbol>) returns (k: nat)
    ensures k <= |r| && r == Run(k) + r[k..] && (k < |r| ==> r[k] != BACKSLASH)
  {
    if r == [] || r[0] != BACKSLASH {
      k := 0;
    } else {
      var n := RunOf(r[1..]);
      k := n + 1;
      Assoc([BACKSLASH], Run(n), r[k..]);
    }
  }

  /** Every replacement is written in pieces. */
  lemma {:induction false} PiecesOf(r: seq<Symbol>) returns (ps: seq<Piece>)
    ensures Legible(ps) && r == AllWritten(ps)
    decreases |r|
  {
    ps := [];
    if r != [] {
      var k := RunOf(r);
      var rest: seq<Symbol> := if k < |r| then r[k + 1..] else [];
      if k < |r| { Assoc(Run(k), [r[k]], rest); assert r[k..] == [r[k]] + rest; }
      var more := PiecesOf(rest);
      if k == |r| {
        ps := [Slashes(k)];
        assert ps[1..] == [];
      } else if r[k] == AMP {
        ps := [Ampersand(k)] + more;
        assert ps[1..] == more;
      } else {
        ps := [Plain(r[k])] + more;
        assert ps[1..] == more;
        if k > 0 {
          var qs := [Slashes(k)] + ps;
          assert qs[1..] == ps;
          ps := qs;
        }
      }
    }
  }
}
