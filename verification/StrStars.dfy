/** Exactly where pmake's glob matcher departs from the meaning of a pattern: at patterns that end
    in more than one star (bsdmake/str.c). */
module StrStars {
  import opened StrMatch

  function Stars(k: nat): (r: seq<Piece>)
    ensures |r| == k && AllMany(r)
  {
    seq(k, _ => Many)
  }

  predicate EndsInStar(ps: seq<Piece>) {
    ps != [] && ps[|ps| - 1].Many?
  }

  /** A pattern means what can be cut into a piece for its beginning and one for its end. */
  lemma {:induction false} MeansCut(ps: seq<Piece>, qs: seq<Piece>, s: string)
    ensures Means(ps + qs, s) <==> exists i :: 0 <= i <= |s| && Means(ps, s[..i]) && Means(qs, s[i..])
    decreases |ps|
  {
    if ps == [] {
      assert ps + qs == qs && s[..0] == "" && s[0..] == s;
    } else {
      assert (ps + qs)[1..] == ps[1..] + qs && (ps + qs)[0] == ps[0];
      if ps[0].Many? {
        StarCut(ps, qs, s);
      } else if s != "" {
        MeansCut(ps[1..], qs, s[1..]);
        CharCut(ps, qs, s);
      }
    }
  }

  lemma CharCut(ps: seq<Piece>, qs: seq<Piece>, s: string)
    requires ps != [] && !ps[0].Many? && s != "" && (ps + qs)[1..] == ps[1..] + qs
    requires Means(ps[1..] + qs, s[1..])
             <==> exists i :: 0 <= i <= |s[1..]| && Means(ps[1..], s[1..][..i]) && Means(qs, s[1..][i..])
    ensures Means(ps + qs, s) <==> exists i :: 0 <= i <= |s| && Means(ps, s[..i]) && Means(qs, s[i..])
  {
    forall i | 0 < i <= |s| ensures s[..i][1..] == s[1..][..i - 1] && s[1..][i - 1..] == s[i..] && s[..i][0] == s[0] { }
    if i :| 0 <= i <= |s[1..]| && Means(ps[1..], s[1..][..i]) && Means(qs, s[1..][i..]) {
      assert Takes(ps[0], s[0]) ==> Means(ps, s[..i + 1]) && Means(qs, s[i + 1..]);
    }
    if i :| 0 <= i <= |s| && Means(ps, s[..i]) && Means(qs, s[i..]) {
      assert i > 0 && Means(ps[1..], s[1..][..i - 1]) && Means(qs, s[1..][i - 1..]);
    }
  }

  lemma StarTail(ps: seq<Piece>, s: string) returns (j: nat)
    requires ps != [] && ps[0].Many? && Means(ps, s)
    ensures j <= |s| && Means(ps[1..], s[j..])
  {
    var i :| 0 <= i <= |s| && Means(ps[1..], s[i..]);
    j := i;
  }

  lemma StarTakes(ps: seq<Piece>, s: string, j: nat)
    requires ps != [] && ps[0].Many? && j <= |s| && Means(ps[1..], s[j..])
    ensures Means(ps, s)
  {
  }

  lemma Slices(s: string, j: nat, i: nat)
    requires j + i <= |s|
    ensures s[..j + i][j..] == s[j..][..i] && s[j..][i..] == s[j + i..]
  {
  }

  lemma {:induction false} StarCut(ps: seq<Piece>, qs: seq<Piece>, s: string)
    requires ps != [] && ps[0].Many? && (ps + qs)[1..] == ps[1..] + qs
    ensures Means(ps + qs, s) <==> exists i :: 0 <= i <= |s| && Means(ps, s[..i]) && Means(qs, s[i..])
    decreases |ps|, 0
  {
    hide Means;
    assert (ps + qs)[0] == ps[0];
    if Means(ps + qs, s) {
      var j := StarTail(ps + qs, s);
      MeansCut(ps[1..], qs, s[j..]);
      var i :| 0 <= i <= |s[j..]| && Means(ps[1..], s[j..][..i]) && Means(qs, s[j..][i..]);
      Slices(s, j, i);
      StarTakes(ps, s[..j + i], j);
    }
    if i :| 0 <= i <= |s| && Means(ps, s[..i]) && Means(qs, s[i..]) {
      var j := StarTail(ps, s[..i]);
      Slices(s, j, i - j);
      assert 0 <= i - j <= |s[j..]| && Means(ps[1..], s[j..][..i - j]) && Means(qs, s[j..][i - j..]);
      MeansCut(ps[1..], qs, s[j..]);
      StarTakes(ps + qs, s, j);
    }
  }

  lemma {:induction false} StarsMeanAll(k: nat, s: string)
    ensures k > 0 ==> Means(Stars(k), s)
  {
    if k > 0 {
      assert Stars(k)[1..] == Stars(k - 1) && s[|s|..] == "" && s[0..] == s;
      if k == 1 { assert Stars(0) == [] && Means([], s[|s|..]); } else { StarsMeanAll(k - 1, s); }
    }
  }

  lemma {:induction false} TightStars(body: seq<Piece>, k: nat)
    requires k >= 2 && !EndsInStar(body)
    ensures Tight(body + Stars(k)) == body + [AnyOne, Many]
  {
    var ps := body + Stars(k);
    if body == [] {
      assert ps == Stars(k);
    } else {
      assert !ps[|body| - 1].Many?;
      assert ps[1..] == body[1..] + Stars(k) && ps[0] == body[0];
      TightStars(body[1..], k);
      assert [body[0]] + (body[1..] + [AnyOne, Many]) == body + [AnyOne, Many];
    }
  }

  lemma StarsBehind(body: seq<Piece>, k: nat, s: string)
    requires k > 0
    ensures Means(body + Stars(k), s) <==> exists i :: 0 <= i <= |s| && Means(body, s[..i])
  {
    hide Means, Stars;
    MeansCut(body, Stars(k), s);
    forall i | 0 <= i <= |s| ensures Means(Stars(k), s[i..]) { StarsMeanAll(k, s[i..]); }
    if i :| 0 <= i <= |s| && Means(body, s[..i]) { assert Means(Stars(k), s[i..]); }
  }

  lemma OneBehind(body: seq<Piece>, s: string)
    ensures Means(body + [AnyOne, Many], s) <==> exists i :: 0 <= i < |s| && Means(body, s[..i])
  {
    hide Means;
    MeansCut(body, [AnyOne, Many], s);
    forall i | 0 <= i <= |s| ensures Means([AnyOne, Many], s[i..]) <==> i < |s| { ManyMeans(s[i..]); }
    if i :| 0 <= i < |s| && Means(body, s[..i]) { assert Means([AnyOne, Many], s[i..]); }
  }

  /** MAIN: with two or more stars behind its last other piece, a pattern matches what it means but
      for the strings that the pieces in front of the stars take up to the end and no sooner. */
  lemma WrongIff(body: seq<Piece>, k: nat, s: string)
    requires Proper(body) && k >= 2 && !EndsInStar(body)
    ensures var ps := body + Stars(k);
            Match(s, Text(ps)) != (if Means(ps, s) then Yes else No)
            <==> Means(body, s) && forall i :: 0 <= i < |s| ==> !Means(body, s[..i])
  {
    hide Match, Means, Tight, Text;
    var ps := body + Stars(k);
    assert Proper(ps);
    MatchMeans(ps, s);
    TightStars(body, k);
    StarsBehind(body, k, s);
    OneBehind(body, s);
    assert s[..|s|] == s;
  }

  // ----- Which patterns are matched rightly.

  /** Every bracket of the pattern lists something. */
  predicate Satisfiable(ps: seq<Piece>) {
    forall i :: 0 <= i < |ps| ==> ps[i] != Class([])
  }

  function Some(x: Piece): char {
    match x
    case Plain(c, _) => c
    case Class(ms) => if ms == [] then ' ' else if ms[0].One? then ms[0].c else ms[0].from
    case _ => ' '
  }

  /** A shortest string with the meaning of a pattern: one character for each piece but the stars. */
  function Shortest(ps: seq<Piece>): string {
    if ps == [] then ""
    else if ps[0].Many? then Shortest(ps[1..])
    else [Some(ps[0])] + Shortest(ps[1..])
  }

  lemma SomeTaken(x: Piece)
    requires !x.Many? && x != Class([])
    ensures Takes(x, Some(x))
  {
    if x.Class? { assert 0 <= 0 < |x.members|; }
  }

  lemma {:induction false} ShortestMeans(ps: seq<Piece>)
    requires Satisfiable(ps)
    ensures Means(ps, Shortest(ps))
  {
    if ps != [] {
      ShortestMeans(ps[1..]);
      if ps[0].Many? {
        assert Shortest(ps)[0..] == Shortest(ps);
      } else {
        SomeTaken(ps[0]);
        assert Shortest(ps)[1..] == Shortest(ps[1..]);
      }
    }
  }

  lemma {:induction false} NoneShorter(ps: seq<Piece>, s: string)
    requires Means(ps, s)
    ensures Satisfiable(ps) && |s| >= |Shortest(ps)|
    decreases |ps|
  {
    if ps != [] {
      if ps[0].Many? {
        var i :| 0 <= i <= |s| && Means(ps[1..], s[i..]);
        NoneShorter(ps[1..], s[i..]);
      } else {
        NoneShorter(ps[1..], s[1..]);
      }
    }
  }

  ghost predicate MatchedRightly(ps: seq<Piece>) {
    forall s :: Match(s, Text(ps)) == if Means(ps, s) then Yes else No
  }

  /** The pattern without the stars at its end. */
  function Body(ps: seq<Piece>): (body: seq<Piece>)
    ensures !EndsInStar(body) && |body| <= |ps| && ps == body + Stars(|ps| - |body|)
  {
    if EndsInStar(ps) then
      var body := Body(ps[..|ps| - 1]);
      assert Stars(|ps| - |body|) == Stars(|ps| - 1 - |body|) + [Many];
      body
    else
      assert ps == ps + Stars(0);
      ps
  }

  /** MAIN: a pattern is matched rightly on all strings exactly if it does not end in two stars, or
      means no string at all because of a bracket that lists nothing. */
  lemma RightlyIff(ps: seq<Piece>)
    requires Proper(ps)
    ensures MatchedRightly(ps) <==> !EndsInTwoStars(ps) || !Satisfiable(ps)
  {
    if !EndsInTwoStars(ps) {
      forall s ensures Match(s, Text(ps)) == if Means(ps, s) then Yes else No { MatchRight(ps, s); }
    } else {
      var body := Body(ps);
      var k := |ps| - |body|;
      TwoStars(ps, body, k);
      assert forall i :: 0 <= i < |body| ==> ps[i] == body[i];
      assert forall i :: |body| <= i < |ps| ==> ps[i] == Many;
      if Satisfiable(ps) {
        var s := Shortest(body);
        ShortestMeans(body);
        forall i | 0 <= i < |s| ensures !Means(body, s[..i]) {
          if Means(body, s[..i]) { NoneShorter(body, s[..i]); }
        }
        WrongIff(body, k, s);
      } else {
        forall s ensures Match(s, Text(ps)) == if Means(ps, s) then Yes else No {
          if Means(body, s) { NoneShorter(body, s); }
          WrongIff(body, k, s);
        }
      }
    }
  }

  lemma TwoStars(ps: seq<Piece>, body: seq<Piece>, k: nat)
    requires EndsInTwoStars(ps) && !EndsInStar(body) && ps == body + Stars(k)
    ensures k >= 2
  {
    assert |ps| == |body| + k;
    assert k == 0 ==> body == ps;
    assert body != [] ==> body[|body| - 1] == ps[|body| - 1];
  }

  lemma TextOfTwoStars()
    ensures Text([Plain('a', false)] + Stars(2)) == "a**"
  {
    var ps := [Plain('a', false)] + Stars(2);
    assert ps[1..] == [Many, Many] && [Many, Many][1..] == [Many] && [Many][1..] == [];
    assert Text([Many]) == "*" && Text([Many, Many]) == "**";
  }

  lemma JustA(s: string)
    ensures Means([Plain('a', false)], s) <==> s == "a"
  {
    assert [Plain('a', false)][1..] == [];
    assert s != "" ==> s == [s[0]] + s[1..];
  }

  /** The text a does not match a**, though it should. */
  lemma TwoStarsWantMore()
    ensures Means([Plain('a', false)] + Stars(2), "a") && Match("a", "a**") == No
  {
    hide Match, Means, Text, Stars;
    var body := [Plain('a', false)];
    TextOfTwoStars();
    JustA("a");
    JustA("");
    assert "a"[..0] == "" && "a"[..1] == "a" && "a"[1..] == "";
    WrongIff(body, 2, "a");
    StarsMeanAll(2, "");
    MeansCut(body, Stars(2), "a");
    MatchMeans(body + Stars(2), "a");
  }
}
