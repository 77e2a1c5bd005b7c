/** Trees written out with no more parentheses than needed, and the theorem that the parser
    reads back exactly what was written. */
module RegexPrint {
  import opened RegexTree
  import opened RegexLex
  import opened RegexParse
  import opened RegexSpell
  import opened RegexClass
  import opened RegexWritten

  predicate ClassOk(m: seq<nat>) {
    forall i :: 0 <= i < |m| ==> 0 < m[i] < 256
  }

  /** Leaves that the parser can produce. */
  predicate LeafOk(leaf: Leaf) {
    match leaf
    case Char(v) => v < 512
    case Dot => true
    case Ccl(m) => ClassOk(m)
    case Nccl(m) => ClassOk(m)
    case All => false
    case Final => false
  }

  /** Trees that the parser can produce: such leaves, not numbered yet. */
  predicate Printable(t: Re) {
    match t
    case Atom(pos, leaf) => pos == 0 && LeafOk(leaf)
    case Star(a) => Printable(a)
    case Plus(a) => Printable(a)
    case Quest(a) => Printable(a)
    case Cat(a, b) => Printable(a) && Printable(b)
    case Or(a, b) => Printable(a) && Printable(b)
  }

  /** A character as three octal digits. */
  function Octals(v: nat): Spelling
    requires v < 512
  {
    OctalCode([Digit(v / 64, false), Digit(v / 8 % 8, false), Digit(v % 8, false)])
  }

  function Singles(m: seq<nat>): seq<Item>
    requires forall i :: 0 <= i < |m| ==> m[i] < 512
  {
    if m == [] then [] else [One(Octals(m[0]))] + Singles(m[1..])
  }

  /** The members of a class one by one; none as a range that runs backwards. */
  function Members(m: seq<nat>): seq<Item>
    requires ClassOk(m)
  {
    if m == [] then [Range(Octals(2), Octals(1))] else Singles(m)
  }

  function WriteLeaf(leaf: Leaf): Written
    requires LeafOk(leaf)
  {
    match leaf
    case Char(v) => if v == NUL then Dollar else if v == HAT then Caret else Letter(Octals(v))
    case Dot => Period
    case Ccl(m) => if m == [] then Blank else Bracket(false, ItemsText(Members(m)))
    case Nccl(m) => Bracket(true, ItemsText(Members(m)))
  }

  function WriteUnary(t: Re): Written
    requires Printable(t)
    decreases t, 0
  {
    match t
    case Atom(_, leaf) => WriteLeaf(leaf)
    case Star(a) => Post(WriteUnary(a), '*')
    case Plus(a) => Post(WriteUnary(a), '+')
    case Quest(a) => Post(WriteUnary(a), '?')
    case Cat(a, b) => Paren(Juxta(WriteCat(a), WriteRight(b)))
    case Or(a, b) => Paren(Either(WriteAlt(a), WriteCat(b)))
  }

  /** The right operand of a concatenation cannot begin with `^`. */
  function WriteRight(t: Re): Written
    requires Printable(t)
    decreases t, 1
  {
    if CaretFirst(WriteUnary(t)) then Paren(WriteUnary(t)) else WriteUnary(t)
  }

  function WriteCat(t: Re): Written
    requires Printable(t)
    decreases t, 1
  {
    if t.Cat? then Juxta(WriteCat(t.left), WriteRight(t.right)) else WriteUnary(t)
  }

  function WriteAlt(t: Re): Written
    requires Printable(t)
    decreases t, 2
  {
    if t.Or? then Either(WriteAlt(t.left), WriteCat(t.right)) else WriteCat(t)
  }

  // ----- Leaves.

  lemma OctalsAre(v: nat, next: seq<nat>)
    requires v < 512
    ensures Spelled(Octals(v), next) && Value(Octals(v)) == v && !Octals(v).Bare?
    ensures Text(Octals(v)) == ['\\' as nat, 48 + v / 64, 48 + v / 8 % 8, 48 + v % 8]
  {
    OctalsText(v / 64, v / 8 % 8, v % 8);
  }

  lemma OctalsText(a: nat, b: nat, c: nat)
    requires a < 8 && b < 8 && c < 8
    ensures DigitsText([Digit(a, false), Digit(b, false), Digit(c, false)]) == [48 + a, 48 + b, 48 + c]
  {
    hide DigitsText;
    NoDigits();
    DigitFirst(Digit(c, false), []);
    DigitFirst(Digit(b, false), [Digit(c, false)]);
    DigitFirst(Digit(a, false), [Digit(b, false), Digit(c, false)]);
    assert [Digit(c, false)] + [] == [Digit(c, false)];
    assert [Digit(b, false)] + [Digit(c, false)] == [Digit(b, false), Digit(c, false)];
    var ds := [Digit(b, false), Digit(c, false)];
    assert [Digit(a, false)] + ds == [Digit(a, false), Digit(b, false), Digit(c, false)];
  }

  lemma NoDigits()
    ensures DigitsText([]) == []
  {
  }

  lemma DigitFirst(d: Digit, more: seq<Digit>)
    ensures DigitsText([d] + more) == [DigitText(d)] + DigitsText(more)
  {
    assert ([d] + more)[1..] == more;
  }

  lemma {:induction false} SinglesAre(m: seq<nat>, first: bool)
    requires ClassOk(m)
    ensures Items(Singles(m), first) && Listed(Singles(m)) == m && Inside(ItemsText(Singles(m)))
    ensures m != [] ==> ItemsText(Singles(m)) != [] && ItemsText(Singles(m))[0] == '\\' as nat
  {
    hide Inside, Spelled, Value, Text, Octals;
    if m == [] {
      EmptyInside();
    } else {
      var next := ItemsText(Singles(m[1..]));
      SinglesAre(m[1..], false);
      OctalsAre(m[0], next);
      assert Singles(m)[1..] == Singles(m[1..]);
      OctalsInside(m[0], next);
    }
  }

  lemma EmptyInside()
    ensures Inside([])
  {
  }

  lemma OctalsInside(v: nat, next: seq<nat>)
    requires v < 512
    ensures Inside(next) ==> Inside(Text(Octals(v)) + next)
  {
    OctalsAre(v, next);
    var s := Text(Octals(v)) + next;
    var s2 := s[2..];
    assert s2[2..] == next && s2[1..][1..] == next;
  }

  lemma MembersAre(m: seq<nat>)
    requires ClassOk(m)
    ensures var raw := ItemsText(Members(m));
            ClassOf(raw) && raw != [] && raw[0] == '\\' as nat && ClassMembers(raw) == m
  {
    var items := Members(m);
    if m == [] {
      var lo, hi, tail := Octals(2), Octals(1), ['-' as nat] + Text(Octals(1));
      OctalsAre(2, tail);
      OctalsAre(1, []);
      assert items[1..] == [] && ItemsText(items) == Text(lo) + tail;
      assert tail + [] == tail && Text(hi) + [] == Text(hi);
      assert Inside(tail) by { OctalsInside(1, []); assert tail[1..] == Text(hi); }
      OctalsInside(2, tail);
    } else {
      SinglesAre(m, true);
    }
    ClassListed(items);
  }

  /** A tree that can be printed is written so that it is in the grammar and stands for itself. */
  ghost predicate Writes(p: Written, t: Re) {
    TreeOf(p) == t && forall r :: Grammar(p, r)
  }

  lemma LeafWrites(leaf: Leaf)
    requires LeafOk(leaf)
    ensures Writes(WriteLeaf(leaf), Atom(0, leaf)) && Rank(WriteLeaf(leaf)) == 2
  {
    hide Octals, Spelled, Value, Members, ItemsText, ClassOf, ClassMembers;
    match leaf
    case Char(v) =>
      OctalsAre(v, []);
      forall r ensures Grammar(WriteLeaf(leaf), r) { OctalsAre(v, r); }
    case Dot =>
    case Ccl(m) => MembersAre(m);
    case Nccl(m) => MembersAre(m);
  }

  // ----- Trees.

  lemma {:induction false} UnaryWrites(t: Re)
    requires Printable(t)
    ensures Writes(WriteUnary(t), t) && Rank(WriteUnary(t)) == 2
    decreases t, 0
  {
    match t
    case Atom(_, leaf) => LeafWrites(leaf);
    case Star(a) => UnaryWrites(a);
    case Plus(a) => UnaryWrites(a);
    case Quest(a) => UnaryWrites(a);
    case Cat(a, b) => CatWrites(a); RightWrites(b); JuxtaWrites(WriteCat(a), WriteRight(b), a, b);
    case Or(a, b) => AltWrites(a); CatWrites(b); EitherWrites(WriteAlt(a), WriteCat(b), a, b);
  }

  lemma JuxtaWrites(p: Written, q: Written, a: Re, b: Re)
    requires Writes(p, a) && Writes(q, b) && Rank(p) >= 1 && Rank(q) == 2 && !CaretFirst(q)
    ensures Writes(Juxta(p, q), Cat(a, b)) && Writes(Paren(Juxta(p, q)), Cat(a, b))
  {
    forall r ensures Grammar(Juxta(p, q), r) { assert Grammar(q, r) && Grammar(p, Print(q) + r); }
  }

  lemma EitherWrites(p: Written, q: Written, a: Re, b: Re)
    requires Writes(p, a) && Writes(q, b) && Rank(q) >= 1
    ensures Writes(Either(p, q), Or(a, b)) && Writes(Paren(Either(p, q)), Or(a, b))
  {
    forall r ensures Grammar(Either(p, q), r) { assert Grammar(q, r) && Grammar(p, ['|' as nat] + (Print(q) + r)); }
  }

  lemma {:induction false} RightWrites(t: Re)
    requires Printable(t)
    ensures Writes(WriteRight(t), t) && Rank(WriteRight(t)) == 2 && !CaretFirst(WriteRight(t))
    decreases t, 1
  {
    UnaryWrites(t);
  }

  lemma {:induction false} CatWrites(t: Re)
    requires Printable(t)
    ensures Writes(WriteCat(t), t) && Rank(WriteCat(t)) >= 1
    decreases t, 1
  {
    if t.Cat? {
      CatWrites(t.left);
      RightWrites(t.right);
      JuxtaWrites(WriteCat(t.left), WriteRight(t.right), t.left, t.right);
    } else {
      UnaryWrites(t);
    }
  }

  lemma {:induction false} AltWrites(t: Re)
    requires Printable(t)
    ensures Writes(WriteAlt(t), t)
    decreases t, 2
  {
    if t.Or? {
      AltWrites(t.left);
      CatWrites(t.right);
      EitherWrites(WriteAlt(t.left), WriteCat(t.right), t.left, t.right);
    } else {
      CatWrites(t);
    }
  }

  /** MAIN: the parser reads back every tree that is written with the parentheses that the
      precedences of postfix operators, concatenation and alternation require, and consumes
      all of the text. */
  lemma ParsePrint(t: Re)
    requires Printable(t)
    ensures Reparse(Print(WriteAlt(t))) == Ok(t)
  {
    AltWrites(t);
    GrammarReads(WriteAlt(t));
  }

  /** A `^` behind a pattern is a syntax error, whatever follows: concatenation does not start with
      it, although the extended regular expressions of POSIX allow it anywhere. */
  lemma HatInsideFails(p: Written, x: seq<nat>)
    requires Grammar(p, ['^' as nat] + x)
    ensures Reparse(Print(p) + (['^' as nat] + x)) == Err(SyntaxError)
  {
    LexOne('^', x);
    PatternReads(p, ['^' as nat] + x, Cursor(THat, x));
  }

  // ----- Every tree that the parser returns is one of these.

  /** The characters of a C string. */
  predicate Chars(s: seq<nat>) {
    forall i :: 0 <= i < |s| ==> 0 < s[i] < 256
  }

  lemma ValueBelow(w: Spelling, next: seq<nat>)
    requires Spelled(w, next) && Chars(Text(w))
    ensures Value(w) < 512
  {
    match w
    case Bare(c) => assert Text(w)[0] == c;
    case Escaped(c) => assert Text(w)[1] == c;
    case HexCode(_) =>
    case OctalCode(_) =>
  }

  lemma {:induction false} UptoBytes(c: nat, hi: nat)
    ensures forall i :: 0 <= i < |Upto(c, hi)| ==> Upto(c, hi)[i] < 256
    decreases hi - c
  {
    if c < hi { UptoBytes(c + 1, hi); }
  }

  lemma {:induction false} ExpandBytes(p: seq<nat>, buf: seq<nat>)
    requires forall i :: 0 <= i < |buf| ==> buf[i] < 256
    ensures forall i :: 0 <= i < |Expand(p, buf)| ==> Expand(p, buf)[i] < 256
    decreases |p|
  {
    if p == [] {
    } else if IsRange(p, buf) {
      var (hi, rest) := ClassChar(p[1..]);
      UptoBytes(buf[|buf| - 1], hi);
      ExpandBytes(rest, AddRange(buf, hi));
    } else {
      var (c, rest) := ClassChar(p);
      ExpandBytes(rest, AddByte(buf, c));
    }
  }

  lemma {:induction false} CStringBytes(s: seq<nat>)
    requires forall i :: 0 <= i < |s| ==> s[i] < 256
    ensures ClassOk(CString(s))
  {
    if s != [] && s[0] != 0 { CStringBytes(s[1..]); }
  }

  lemma ClassMembersOk(raw: seq<nat>)
    ensures ClassOk(ClassMembers(raw))
  {
    ExpandBytes(raw, []);
    CStringBytes(Expand(raw, []));
  }

  lemma CharsSplit(a: seq<nat>, b: seq<nat>)
    requires Chars(a + b)
    ensures Chars(a) && Chars(b)
  {
    assert (a + b)[..|a|] == a && (a + b)[|a|..] == b;
    assert forall i :: 0 <= i < |b| ==> b[i] == (a + b)[|a| + i];
  }

  lemma {:induction false} TreePrintable(p: Written, r: seq<nat>)
    requires Grammar(p, r) && Chars(Print(p))
    ensures Printable(TreeOf(p))
  {
    match p
    case Letter(w) => ValueBelow(w, r);
    case Bracket(_, raw) => ClassMembersOk(raw);
    case Paren(a) =>
      CharsSplit(['(' as nat], Print(a) + [')' as nat]);
      CharsSplit(Print(a), [')' as nat]);
      TreePrintable(a, [')' as nat] + r);
    case Post(a, op) =>
      CharsSplit(Print(a), [op as nat]);
      TreePrintable(a, [op as nat] + r);
    case Juxta(a, b) =>
      CharsSplit(Print(a), Print(b));
      TreePrintable(a, Print(b) + r);
      TreePrintable(b, r);
    case Either(a, b) =>
      CharsSplit(Print(a), ['|' as nat] + Print(b));
      CharsSplit(['|' as nat], Print(b));
      TreePrintable(a, ['|' as nat] + (Print(b) + r));
      TreePrintable(b, r);
    case _ =>
  }

  /** MAIN: what the parser returns can be written out and read again, whatever way it was
      written first. */
  lemma ParsePrintParse(s: seq<nat>)
    requires Chars(s) && Reparse(s).Ok?
    ensures Printable(Reparse(s).value) && Reparse(Print(WriteAlt(Reparse(s).value))) == Reparse(s)
  {
    hide Reparse, Grammar, Print, TreeOf;
    var t := Reparse(s).value;
    ReparseIff(s, t);
    var p :| Grammar(p, []) && Print(p) == s && TreeOf(p) == t;
    TreePrintable(p, []);
    ParsePrint(t);
  }
}
