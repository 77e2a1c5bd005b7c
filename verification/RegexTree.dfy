/** Parse trees of awk's extended regular expressions, the words they denote, and
    the contexts that stand for the parent pointers of awk/b.c. */
module RegexTree {

  /** Symbols are character codes 0..255; NUL also stands for `$`. */
  type Symbol = nat

  const NUL: Symbol := 0
  const HAT: Symbol := 256  // read once before the text; `^` is a leaf for it
  const NCHARS: nat := 257
  const END: Symbol := 257  // matched by the FINAL leaf only; never in a text

  datatype Leaf =
    | Char(c: Symbol)
    | Dot
    | All
    | Ccl(members: seq<Symbol>)
    | Nccl(members: seq<Symbol>)
    | Final

  datatype Re =
    | Atom(pos: nat, leaf: Leaf)
    | Star(arg: Re)
    | Plus(arg: Re)
    | Quest(arg: Re)
    | Cat(left: Re, right: Re)
    | Or(left: Re, right: Re)

  /** Does a leaf consume this symbol? */
  predicate Matches(leaf: Leaf, c: Symbol) {
    match leaf
    case Char(k) => c == k && c != END
    case Dot => c != NUL && c != HAT && c != END
    case All => c != NUL && c != END
    case Ccl(m) => c in m && c != END
    case Nccl(m) => c !in m && c != NUL && c != HAT && c != END
    case Final => c == END
  }

  /** An empty character class, written `()`, stands for the empty word. */
  predicate IsEmptyClass(leaf: Leaf) {
    leaf == Ccl([])
  }

  /** The language of a tree. */
  ghost predicate Lang(r: Re, w: seq<Symbol>)
    decreases r, |w|, 0
  {
    match r
    case Atom(_, leaf) => if IsEmptyClass(leaf) then w == [] else |w| == 1 && Matches(leaf, w[0])
    case Star(a) => StarLang(a, w)
    case Plus(a) => exists k :: 0 <= k <= |w| && Lang(a, w[..k]) && StarLang(a, w[k..])
    case Quest(a) => w == [] || Lang(a, w)
    case Cat(a, b) => exists k :: 0 <= k <= |w| && Lang(a, w[..k]) && Lang(b, w[k..])
    case Or(a, b) => Lang(a, w) || Lang(b, w)
  }

  /** Zero or more words of `a`, one after the other. */
  ghost predicate StarLang(a: Re, w: seq<Symbol>)
    decreases a, |w|, 1
  {
    w == [] || exists k :: 0 < k <= |w| && Lang(a, w[..k]) && StarLang(a, w[k..])
  }

  lemma CatIntro(a: Re, b: Re, u: seq<Symbol>, v: seq<Symbol>)
    requires Lang(a, u) && Lang(b, v)
    ensures Lang(Cat(a, b), u + v)
  {
    var w := u + v;
    assert w[..|u|] == u && w[|u|..] == v;
  }

  lemma StarIntro(a: Re, u: seq<Symbol>, v: seq<Symbol>)
    requires u != [] && Lang(a, u) && StarLang(a, v)
    ensures StarLang(a, u + v)
  {
    var w := u + v;
    assert w[..|u|] == u && w[|u|..] == v;
  }

  lemma PlusIntro(a: Re, u: seq<Symbol>, v: seq<Symbol>)
    requires Lang(a, u) && StarLang(a, v)
    ensures Lang(Plus(a), u + v)
  {
    var w := u + v;
    assert w[..|u|] == u && w[|u|..] == v;
  }

  predicate Nullable(r: Re) {
    match r
    case Atom(_, leaf) => IsEmptyClass(leaf)
    case Star(_) => true
    case Plus(a) => Nullable(a)
    case Quest(_) => true
    case Cat(a, b) => Nullable(a) && Nullable(b)
    case Or(a, b) => Nullable(a) || Nullable(b)
  }

  /** `Nullable` is membership of the empty word. */
  lemma {:induction false} NullableIsEmptyWord(r: Re)
    ensures Nullable(r) <==> Lang(r, [])
  {
    var e: seq<Symbol> := [];
    match r
    case Atom(_, _) =>
    case Star(_) =>
    case Plus(a) =>
      NullableIsEmptyWord(a);
      assert e[..0] == e && e[0..] == e;
    case Quest(_) =>
    case Cat(a, b) =>
      NullableIsEmptyWord(a);
      NullableIsEmptyWord(b);
      assert e[..0] == e && e[0..] == e;
    case Or(a, b) =>
      NullableIsEmptyWord(a);
      NullableIsEmptyWord(b);
  }

  /** The way from a subtree up to the root: which child it is of each ancestor, with
      what an ancestor can repeat (the child itself) or read next (the right sibling). */
  datatype Ctx =
    | Root
    | InStar(arg: Re, up: Ctx)
    | InPlus(arg: Re, up: Ctx)
    | InQuest(up: Ctx)
    | InOr(up: Ctx)
    | InCatLeft(right: Re, up: Ctx)
    | InCatRight(up: Ctx)

  /** The words that may still follow once the subtree in this context is done. */
  ghost predicate Rest(k: Ctx, w: seq<Symbol>)
    decreases k
  {
    match k
    case Root => w == []
    case InStar(a, up) => exists i :: 0 <= i <= |w| && StarLang(a, w[..i]) && Rest(up, w[i..])
    case InPlus(a, up) => exists i :: 0 <= i <= |w| && StarLang(a, w[..i]) && Rest(up, w[i..])
    case InQuest(up) => Rest(up, w)
    case InOr(up) => Rest(up, w)
    case InCatLeft(b, up) => exists i :: 0 <= i <= |w| && Lang(b, w[..i]) && Rest(up, w[i..])
    case InCatRight(up) => Rest(up, w)
  }
}
