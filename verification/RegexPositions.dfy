/** The position automaton of a tree: which leaves can be entered first, which can
    follow a leaf, and why stepping through them recognises the tree's language. */
module RegexPositions {
  import opened RegexTree

  /** A leaf of a whole tree, with its index and its way up to the root. */
  datatype Loc = Loc(pos: nat, leaf: Leaf, ctx: Ctx)

  ghost function AllLocs(t: Re, k: Ctx): set<Loc>
    decreases t
  {
    match t
    case Atom(pos, leaf) => {Loc(pos, leaf, k)}
    case Star(a) => AllLocs(a, InStar(a, k))
    case Plus(a) => AllLocs(a, InPlus(a, k))
    case Quest(a) => AllLocs(a, InQuest(k))
    case Cat(a, b) => AllLocs(a, InCatLeft(b, k)) + AllLocs(b, InCatRight(k))
    case Or(a, b) => AllLocs(a, InOr(k)) + AllLocs(b, InOr(k))
  }

  /** Leaves that can consume the first symbol of a word of `t`. */
  ghost function FirstLocs(t: Re, k: Ctx): set<Loc>
    decreases t
  {
    match t
    case Atom(pos, leaf) => {Loc(pos, leaf, k)}
    case Star(a) => FirstLocs(a, InStar(a, k))
    case Plus(a) => FirstLocs(a, InPlus(a, k))
    case Quest(a) => FirstLocs(a, InQuest(k))
    case Cat(a, b) => FirstLocs(a, InCatLeft(b, k)) + (if Nullable(a) then FirstLocs(b, InCatRight(k)) else {})
    case Or(a, b) => FirstLocs(a, InOr(k)) + FirstLocs(b, InOr(k))
  }

  /** Leaves that can consume the next symbol once the subtree in context `k` is done. */
  ghost function FollowLocs(k: Ctx): set<Loc>
    decreases k
  {
    match k
    case Root => {}
    case InStar(a, up) => FirstLocs(a, k) + FollowLocs(up)
    case InPlus(a, up) => FirstLocs(a, k) + FollowLocs(up)
    case InQuest(up) => FollowLocs(up)
    case InOr(up) => FollowLocs(up)
    case InCatLeft(b, up) => FirstLocs(b, InCatRight(up)) + (if Nullable(b) then FollowLocs(up) else {})
    case InCatRight(up) => FollowLocs(up)
  }

  /** `l` consumes the first symbol of `w` and its surroundings accept the others. */
  ghost predicate Continues(l: Loc, w: seq<Symbol>) {
    w != [] && Matches(l.leaf, w[0]) && Rest(l.ctx, w[1..])
  }

  // ----- First leaves are complete: a non-empty word of t starts at one of them.

  lemma {:induction false} FirstComplete(t: Re, k: Ctx, w: seq<Symbol>, j: nat) returns (l: Loc)
    requires 0 < j <= |w| && Lang(t, w[..j]) && Rest(k, w[j..])
    ensures l in FirstLocs(t, k) && Continues(l, w)
    decreases t, 3
  {
    match t
    case Atom(pos, leaf) =>
      assert j == 1 && w[..j][0] == w[0];
      l := Loc(pos, leaf, k);
    case Star(a) => l := StarComplete(a, InStar(a, k), k, w, j);
    case Plus(a) => l := PlusComplete(a, k, w, j);
    case Quest(a) => l := FirstComplete(a, InQuest(k), w, j);
    case Cat(a, b) => l := CatComplete(a, b, k, w, j);
    case Or(a, b) =>
      if Lang(a, w[..j]) {
        l := FirstComplete(a, InOr(k), w, j);
      } else {
        l := FirstComplete(b, InOr(k), w, j);
      }
  }

  lemma {:induction false} PlusComplete(a: Re, k: Ctx, w: seq<Symbol>, j: nat) returns (l: Loc)
    requires 0 < j <= |w| && Lang(Plus(a), w[..j]) && Rest(k, w[j..])
    ensures l in FirstLocs(a, InPlus(a, k)) && Continues(l, w)
    decreases a, 5
  {
    hide Lang, StarLang, Rest, FirstLocs, Continues;
    var v := w[..j];
    var i := PlusSplit(a, v);
    if i == 0 {
      assert v[0..] == v;
      l := StarComplete(a, InPlus(a, k), k, w, j);
    } else {
      Joined(w, i, j);
      RestOfRounds(a, k, w[i..], j - i);
      l := FirstComplete(a, InPlus(a, k), w, i);
    }
  }

  lemma PlusSplit(a: Re, v: seq<Symbol>) returns (i: nat)
    requires Lang(Plus(a), v)
    ensures i <= |v| && Lang(a, v[..i]) && StarLang(a, v[i..])
  {
    var m :| 0 <= m <= |v| && Lang(a, v[..m]) && StarLang(a, v[m..]);
    i := m;
  }

  /** Rounds of a repetition are what may follow one. */
  lemma RestOfRounds(a: Re, k: Ctx, v: seq<Symbol>, m: nat)
    requires m <= |v| && StarLang(a, v[..m]) && Rest(k, v[m..])
    ensures Rest(InStar(a, k), v) && Rest(InPlus(a, k), v)
  {
  }

  lemma {:induction false} CatComplete(a: Re, b: Re, k: Ctx, w: seq<Symbol>, j: nat) returns (l: Loc)
    requires 0 < j <= |w| && Lang(Cat(a, b), w[..j]) && Rest(k, w[j..])
    ensures l in FirstLocs(Cat(a, b), k) && Continues(l, w)
    decreases Cat(a, b), 2
  {
    hide Lang, StarLang, Rest, Continues;
    var v := w[..j];
    var i := CatSplit(a, b, v);
    if i == 0 {
      NullableIsEmptyWord(a);
      assert v[..0] == [] && v[0..] == v;
      l := FirstComplete(b, InCatRight(k), w, j);
    } else {
      Joined(w, i, j);
      RestOfRight(b, k, w[i..], j - i);
      l := FirstComplete(a, InCatLeft(b, k), w, i);
    }
  }

  lemma CatSplit(a: Re, b: Re, v: seq<Symbol>) returns (i: nat)
    requires Lang(Cat(a, b), v)
    ensures i <= |v| && Lang(a, v[..i]) && Lang(b, v[i..])
  {
    var m :| 0 <= m <= |v| && Lang(a, v[..m]) && Lang(b, v[m..]);
    i := m;
  }

  lemma RestOfRight(b: Re, k: Ctx, v: seq<Symbol>, m: nat)
    requires m <= |v| && Lang(b, v[..m]) && Rest(k, v[m..])
    ensures Rest(InCatLeft(b, k), v)
  {
  }

  /** Two ways to cut a word at `i` and `j`. */
  lemma Joined(w: seq<Symbol>, i: nat, j: nat)
    requires i <= j <= |w|
    ensures w[..j][..i] == w[..i] && w[..j][i..] == w[i..][..j - i] && w[i..][j - i..] == w[j..]
  {
  }

  /** The repeated case: the first piece of a non-empty repetition is not empty. */
  lemma {:induction false} StarComplete(a: Re, inner: Ctx, k: Ctx, w: seq<Symbol>, j: nat) returns (l: Loc)
    requires inner == InStar(a, k) || inner == InPlus(a, k)
    requires 0 < j <= |w| && StarLang(a, w[..j]) && Rest(k, w[j..])
    ensures l in FirstLocs(a, inner) && Continues(l, w)
    decreases a, 4
  {
    hide Lang, StarLang, Rest, FirstLocs, Continues;
    var i := StarSplit(a, w[..j]);
    Joined(w, i, j);
    RestOfRounds(a, k, w[i..], j - i);
    l := FirstComplete(a, inner, w, i);
  }

  lemma StarSplit(a: Re, v: seq<Symbol>) returns (i: nat)
    requires v != [] && StarLang(a, v)
    ensures 0 < i <= |v| && Lang(a, v[..i]) && StarLang(a, v[i..])
  {
    var m :| 0 < m <= |v| && Lang(a, v[..m]) && StarLang(a, v[m..]);
    i := m;
  }

  // ----- ... and sound: a continuation of a first leaf is a word of t and a rest.

  lemma {:induction false} FirstSound(t: Re, k: Ctx, w: seq<Symbol>, l: Loc) returns (j: nat)
    requires l in FirstLocs(t, k) && Continues(l, w)
    ensures 0 < j <= |w| && Lang(t, w[..j]) && Rest(k, w[j..])
    decreases t
  {
    match t
    case Atom(pos, leaf) =>
      j := 1;
    case Star(a) =>
      var i := FirstSound(a, InStar(a, k), w, l);
      j := ExtendStar(a, k, w, i);
    case Plus(a) =>
      var i := FirstSound(a, InPlus(a, k), w, l);
      j := ExtendPlus(a, k, w, i);
    case Quest(a) =>
      j := FirstSound(a, InQuest(k), w, l);
    case Cat(a, b) =>
      if l in FirstLocs(a, InCatLeft(b, k)) {
        var i := FirstSound(a, InCatLeft(b, k), w, l);
        j := ExtendCat(a, b, k, w, i);
      } else {
        j := FirstSound(b, InCatRight(k), w, l);
        NullableIsEmptyWord(a);
        assert w[..j][..0] == [] && w[..j][0..] == w[..j];
      }
    case Or(a, b) =>
      if l in FirstLocs(a, InOr(k)) {
        j := FirstSound(a, InOr(k), w, l);
      } else {
        j := FirstSound(b, InOr(k), w, l);
      }
  }

  lemma Regrouped(w: seq<Symbol>, i: nat, m: nat)
    requires i + m <= |w|
    ensures w[..i + m] == w[..i] + w[i..][..m] && w[i..][m..] == w[i + m..]
  {
  }

  lemma MoreRounds(a: Re, k: Ctx, v: seq<Symbol>) returns (m: nat)
    requires Rest(InStar(a, k), v) || Rest(InPlus(a, k), v)
    ensures m <= |v| && StarLang(a, v[..m]) && Rest(k, v[m..])
  {
    var i :| 0 <= i <= |v| && StarLang(a, v[..i]) && Rest(k, v[i..]);
    m := i;
  }

  lemma ExtendStar(a: Re, k: Ctx, w: seq<Symbol>, i: nat) returns (j: nat)
    requires 0 < i <= |w| && Lang(a, w[..i]) && Rest(InStar(a, k), w[i..])
    ensures i <= j <= |w| && StarLang(a, w[..j]) && Rest(k, w[j..])
  {
    hide Lang, StarLang, Rest;
    var m := MoreRounds(a, k, w[i..]);
    StarIntro(a, w[..i], w[i..][..m]);
    Regrouped(w, i, m);
    j := i + m;
  }

  lemma ExtendPlus(a: Re, k: Ctx, w: seq<Symbol>, i: nat) returns (j: nat)
    requires 0 < i <= |w| && Lang(a, w[..i]) && Rest(InPlus(a, k), w[i..])
    ensures i <= j <= |w| && Lang(Plus(a), w[..j]) && Rest(k, w[j..])
  {
    hide Lang, StarLang, Rest;
    var m := MoreRounds(a, k, w[i..]);
    PlusIntro(a, w[..i], w[i..][..m]);
    Regrouped(w, i, m);
    j := i + m;
  }

  lemma RightOperand(b: Re, k: Ctx, v: seq<Symbol>) returns (m: nat)
    requires Rest(InCatLeft(b, k), v)
    ensures m <= |v| && Lang(b, v[..m]) && Rest(k, v[m..])
  {
    var i :| 0 <= i <= |v| && Lang(b, v[..i]) && Rest(k, v[i..]);
    m := i;
  }

  lemma ExtendCat(a: Re, b: Re, k: Ctx, w: seq<Symbol>, i: nat) returns (j: nat)
    requires 0 < i <= |w| && Lang(a, w[..i]) && Rest(InCatLeft(b, k), w[i..])
    ensures i <= j <= |w| && Lang(Cat(a, b), w[..j]) && Rest(k, w[j..])
  {
    hide Lang, Rest;
    var m := RightOperand(b, k, w[i..]);
    CatIntro(a, b, w[..i], w[i..][..m]);
    Regrouped(w, i, m);
    j := i + m;
  }

  // ----- What may follow a context is exactly what its follow leaves continue with.

  lemma {:induction false} FollowComplete(k: Ctx, w: seq<Symbol>) returns (l: Loc)
    requires w != [] && Rest(k, w)
    ensures l in FollowLocs(k) && Continues(l, w)
    decreases k
  {
    match k
    case InStar(a, up) =>
      var i :| 0 <= i <= |w| && StarLang(a, w[..i]) && Rest(up, w[i..]);
      assert w[0..] == w;
      if i == 0 { l := FollowComplete(up, w); } else { l := StarComplete(a, k, up, w, i); }
    case InPlus(a, up) =>
      var i :| 0 <= i <= |w| && StarLang(a, w[..i]) && Rest(up, w[i..]);
      assert w[0..] == w;
      if i == 0 { l := FollowComplete(up, w); } else { l := StarComplete(a, k, up, w, i); }
    case InQuest(up) => l := FollowComplete(up, w);
    case InOr(up) => l := FollowComplete(up, w);
    case InCatLeft(b, up) =>
      var i :| 0 <= i <= |w| && Lang(b, w[..i]) && Rest(up, w[i..]);
      assert w[0..] == w && w[..0] == [];
      if i == 0 {
        NullableIsEmptyWord(b);
        l := FollowComplete(up, w);
      } else {
        l := FirstComplete(b, InCatRight(up), w, i);
      }
    case InCatRight(up) => l := FollowComplete(up, w);
  }

  lemma {:induction false} FollowSound(k: Ctx, w: seq<Symbol>, l: Loc)
    requires l in FollowLocs(k) && Continues(l, w)
    ensures Rest(k, w)
    decreases k
  {
    match k
    case InStar(a, up) =>
      if l in FirstLocs(a, k) {
        var i := FirstSound(a, k, w, l);
        var j := ExtendStar(a, up, w, i);
      } else {
        FollowSound(up, w, l);
        assert w[..0] == [] && w[0..] == w;
      }
    case InPlus(a, up) =>
      if l in FirstLocs(a, k) {
        var i := FirstSound(a, k, w, l);
        assert Rest(InStar(a, up), w[i..]);
        var j := ExtendStar(a, up, w, i);
      } else {
        FollowSound(up, w, l);
        assert w[..0] == [] && w[0..] == w;
      }
    case InQuest(up) => FollowSound(up, w, l);
    case InOr(up) => FollowSound(up, w, l);
    case InCatLeft(b, up) =>
      if l in FirstLocs(b, InCatRight(up)) {
        var i := FirstSound(b, InCatRight(up), w, l);
      } else {
        FollowSound(up, w, l);
        NullableIsEmptyWord(b);
        assert w[..0] == [] && w[0..] == w;
      }
    case InCatRight(up) => FollowSound(up, w, l);
  }
}
