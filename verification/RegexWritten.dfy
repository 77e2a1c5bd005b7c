/** Patterns as they are written, and the theorem that the parser reads each of them as the tree it
    stands for, and reads nothing else. */
module RegexWritten {
  import opened RegexTree
  import opened RegexLex
  import opened RegexParse
  import opened RegexSpell
  import opened RegexClass

  /** `Blank` is an empty pair of parentheses; `raw` is what stands between the brackets, behind the
      caret of a negated class. */
  datatype Written =
    | Letter(w: Spelling)
    | Period
    | Caret
    | Dollar
    | Blank
    | Bracket(negated: bool, raw: seq<nat>)
    | Paren(inner: Written)
    | Post(arg: Written, op: char)
    | Juxta(first: Written, second: Written)
    | Either(one: Written, other: Written)

  function Print(p: Written): seq<nat> {
    match p
    case Letter(w) => Text(w)
    case Period => ['.' as nat]
    case Caret => ['^' as nat]
    case Dollar => ['$' as nat]
    case Blank => ['(' as nat, ')' as nat]
    case Bracket(negated, raw) =>
      (if negated then ['[' as nat, '^' as nat] else ['[' as nat]) + (raw + [']' as nat])
    case Paren(a) => ['(' as nat] + (Print(a) + [')' as nat])
    case Post(a, op) => Print(a) + [op as nat]
    case Juxta(a, b) => Print(a) + Print(b)
    case Either(a, b) => Print(a) + (['|' as nat] + Print(b))
  }

  function TreeOf(p: Written): Re {
    match p
    case Letter(w) => Atom(0, Char(Value(w)))
    case Period => Atom(0, Dot)
    case Caret => Atom(0, Char(HAT))
    case Dollar => Atom(0, Char(NUL))
    case Blank => Atom(0, Ccl([]))
    case Bracket(negated, raw) => Atom(0, if negated then Nccl(ClassMembers(raw)) else Ccl(ClassMembers(raw)))
    case Paren(a) => TreeOf(a)
    case Post(a, op) => if op == '*' then Star(TreeOf(a)) else if op == '+' then Plus(TreeOf(a)) else Quest(TreeOf(a))
    case Juxta(a, b) => Cat(TreeOf(a), TreeOf(b))
    case Either(a, b) => Or(TreeOf(a), TreeOf(b))
  }

  /** 0 for an alternation, 1 for a concatenation, 2 for what a postfix operator can follow. */
  function Rank(p: Written): nat {
    match p
    case Juxta(_, _) => 1
    case Either(_, _) => 0
    case _ => 2
  }

  /** Does the pattern, one of rank 2, begin with a caret? */
  predicate CaretFirst(p: Written) {
    p.Caret? || (p.Post? && CaretFirst(p.arg))
  }

  predicate Ordinary(c: nat) {
    forall x :: x in "|*+?.^$()\\[" ==> c != x as nat
  }

  /** The grammar, in front of `r`, which matters only for where numbers end: operators associate to
      the left, and a concatenation does not go on with a caret. */
  predicate Grammar(p: Written, r: seq<nat>) {
    match p
    case Letter(w) => Spelled(w, r) && (w.Bare? ==> Ordinary(w.c))
    case Bracket(negated, raw) => ClassOf(raw) && (raw[0] == '^' as nat ==> negated)
    case Paren(a) => Grammar(a, [')' as nat] + r)
    case Post(a, op) => Rank(a) == 2 && op in {'*', '+', '?'} && Grammar(a, [op as nat] + r)
    case Juxta(a, b) =>
      Rank(a) >= 1 && Rank(b) == 2 && !CaretFirst(b) && Grammar(a, Print(b) + r) && Grammar(b, r)
    case Either(a, b) => Rank(b) >= 1 && Grammar(a, ['|' as nat] + (Print(b) + r)) && Grammar(b, r)
    case _ => true
  }

  // ----- Tokens.

  lemma LexOne(c: char, r: seq<nat>)
    requires c in "|*+?.^$()"
    ensures Lex([c as nat] + r) == Ok(Cursor(TokenOf(c), r))
  {
    assert ([c as nat] + r)[1..] == r;
  }

  function TokenOf(c: char): Token
    requires c in "|*+?.^$()"
  {
    match c
    case '|' => TOr
    case '*' => TStar
    case '+' => TPlus
    case '?' => TQuest
    case '.' => TDot
    case '^' => THat
    case '$' => TDollar
    case '(' => TOpen
    case _ => TClose
  }

  lemma LexLetter(w: Spelling, r: seq<nat>)
    requires Spelled(w, r) && (w.Bare? ==> Ordinary(w.c))
    ensures Lex(Text(w) + r) == Ok(Cursor(TChar(Value(w)), r))
  {
    hide Quoted, ClassText;
    var s := Text(w) + r;
    if w.Bare? {
      assert forall x :: x in "|*+?.^$()\\[" ==> w.c != x as nat;
      OrdinaryReads(w.c, r);
      assert s == [w.c] + r;
    } else {
      QuotedReads(w, r);
      assert s[1..] == Text(w)[1..] + r;
    }
  }

  lemma OrdinaryReads(c: nat, r: seq<nat>)
    requires Ordinary(c)
    ensures Lex([c] + r) == Ok(Cursor(TChar(c), r))
  {
    hide Quoted, ClassText;
    assert '|' in "|*+?.^$()\\[" && '*' in "|*+?.^$()\\[" && '+' in "|*+?.^$()\\[" && '?' in "|*+?.^$()\\[";
    assert '.' in "|*+?.^$()\\[" && '^' in "|*+?.^$()\\[" && '$' in "|*+?.^$()\\[" && '(' in "|*+?.^$()\\[";
    assert ')' in "|*+?.^$()\\[" && '\\' in "|*+?.^$()\\[" && '[' in "|*+?.^$()\\[";
    assert ([c] + r)[1..] == r;
  }

  lemma LexBracket(negated: bool, raw: seq<nat>, r: seq<nat>)
    requires ClassOf(raw) && (raw[0] == '^' as nat ==> negated)
    ensures Lex(Print(Bracket(negated, raw)) + r) == Ok(Cursor(if negated then TNccl(raw) else TCcl(raw), r))
  {
    hide Quoted, ClassText;
    var s := Print(Bracket(negated, raw)) + r;
    var t := raw + ([']' as nat] + r);
    ClassReads(raw, r);
    if negated { assert s[1..][1..] == t; } else { assert s[1..] == t && t[0] == raw[0]; }
  }

  // ----- What the parser makes of a pattern.

  predicate Postfix(tok: Token) {
    tok.TStar? || tok.TPlus? || tok.TQuest?
  }

  predicate Opens(tok: Token) {
    Concatenates(tok) || tok.THat?
  }

  /** A primary and what is concatenated to it. */
  function Term(c: Cursor): Parsed {
    var (np, c1) :- Primary(c);
    Concat(np, c1)
  }

  /** The head of `s` is read as an operand that stands for `t`, up to the token `c`. */
  predicate OperandRead(s: seq<nat>, caret: bool, t: Re, c: Cursor) {
    var r := Lex(s);
    r.Ok? && (if caret then r.value.tok.THat? else Concatenates(r.value.tok)) && Primary(r.value) == Unary(t, c)
  }

  predicate TermRead(s: seq<nat>, t: Re, c: Cursor) {
    var r := Lex(s);
    r.Ok? && Opens(r.value.tok) && Term(r.value) == Concat(t, c)
  }

  predicate PatternRead(s: seq<nat>, t: Re, c: Cursor) {
    var r := Lex(s);
    r.Ok? && Opens(r.value.tok) && Regexp(r.value) == Alt(t, c)
  }

  lemma {:induction false} OperandReads(p: Written, r: seq<nat>, c: Cursor)
    requires Rank(p) == 2 && Grammar(p, r) && Lex(r) == Ok(c)
    ensures OperandRead(Print(p) + r, CaretFirst(p), TreeOf(p), c)
    decreases p, 3
  {
    hide Lex, OperandRead;
    match p
    case Blank => BlankReads(r, c);
    case Paren(a) =>
      LexOne(')', r);
      PatternReads(a, [')' as nat] + r, Cursor(TClose, r));
      ParenRead(a, r, c);
    case Post(a, op) =>
      LexOne(op, r);
      OperandReads(a, [op as nat] + r, Cursor(TokenOf(op), r));
      PostReads(a, op, r, c);
    case _ => LeafReads(p, r, c);
  }

  lemma LeafReads(p: Written, r: seq<nat>, c: Cursor)
    requires p.Letter? || p.Period? || p.Caret? || p.Dollar? || p.Bracket?
    requires Grammar(p, r) && Lex(r) == Ok(c)
    ensures OperandRead(Print(p) + r, CaretFirst(p), TreeOf(p), c)
  {
    hide Lex, Unary, Spelled, ClassOf, ClassMembers, Value, Text;
    match p
    case Letter(w) => LexLetter(w, r);
    case Period => LexOne('.', r);
    case Caret => LexOne('^', r);
    case Dollar => LexOne('$', r);
    case Bracket(negated, raw) => LexBracket(negated, raw, r);
  }

  lemma PostReads(a: Written, op: char, r: seq<nat>, c: Cursor)
    requires op in {'*', '+', '?'} && Lex(r) == Ok(c)
    requires OperandRead(Print(a) + ([op as nat] + r), CaretFirst(a), TreeOf(a), Cursor(TokenOf(op), r))
    ensures OperandRead(Print(Post(a, op)) + r, CaretFirst(a), TreeOf(Post(a, op)), c)
  {
    hide Lex, Primary;
    Assoc(Print(a), [op as nat], r);
    PostRead(TreeOf(a), op, r, c);
  }

  lemma BlankReads(r: seq<nat>, c: Cursor)
    requires Lex(r) == Ok(c)
    ensures OperandRead(Print(Blank) + r, false, TreeOf(Blank), c)
  {
    hide Lex, Unary;
    LexOne('(', [')' as nat] + r);
    LexOne(')', r);
    assert Print(Blank) + r == ['(' as nat] + ([')' as nat] + r);
  }

  lemma PostRead(t: Re, op: char, r: seq<nat>, c: Cursor)
    requires op in {'*', '+', '?'} && Lex(r) == Ok(c)
    ensures Unary(t, Cursor(TokenOf(op), r)) ==
            Unary(if op == '*' then Star(t) else if op == '+' then Plus(t) else Quest(t), c)
  {
  }

  lemma ParenRead(a: Written, r: seq<nat>, c: Cursor)
    requires PatternRead(Print(a) + ([')' as nat] + r), TreeOf(a), Cursor(TClose, r)) && Lex(r) == Ok(c)
    ensures OperandRead(Print(Paren(a)) + r, false, TreeOf(a), c)
  {
    hide Lex, Unary;
    var s := Print(a) + ([')' as nat] + r);
    Assoc(['(' as nat], Print(a) + [')' as nat], r);
    Assoc(Print(a), [')' as nat], r);
    LexOne('(', s);
  }

  lemma {:induction false} TermReads(p: Written, r: seq<nat>, c: Cursor)
    requires Rank(p) >= 1 && Grammar(p, r) && Lex(r) == Ok(c) && !Postfix(c.tok)
    ensures TermRead(Print(p) + r, TreeOf(p), c)
    decreases p, 4
  {
    if p.Juxta? {
      var r' := Print(p.second) + r;
      Assoc(Print(p.first), Print(p.second), r);
      OperandReads(p.second, r, c);
      var c' := Lex(r').value;
      TermReads(p.first, r', c');
      ConcatOnce(TreeOf(p.first), c', TreeOf(p.second), c);
    } else {
      OperandReads(p, r, c);
    }
  }

  lemma ConcatOnce(np: Re, c: Cursor, t: Re, c1: Cursor)
    requires Concatenates(c.tok) && Primary(c) == Unary(t, c1) && !Postfix(c1.tok)
    ensures Concat(np, c) == Concat(Cat(np, t), c1)
  {
  }

  lemma {:induction false} PatternReads(p: Written, r: seq<nat>, c: Cursor)
    requires Grammar(p, r) && Lex(r) == Ok(c) && !Postfix(c.tok) && !Concatenates(c.tok)
    ensures PatternRead(Print(p) + r, TreeOf(p), c)
    decreases p, 5
  {
    hide Lex, Unary, Primary;
    if p.Either? {
      var s := Print(p.other) + r;
      Assoc(Print(p.one), ['|' as nat] + Print(p.other), r);
      Assoc(['|' as nat], Print(p.other), r);
      LexOne('|', s);
      PatternReads(p.one, ['|' as nat] + s, Cursor(TOr, s));
      TermReads(p.other, r, c);
      AltOnce(TreeOf(p.one), Cursor(TOr, s), Lex(s).value, TreeOf(p.other), c);
    } else {
      TermReads(p, r, c);
    }
  }

  lemma AltOnce(np: Re, c: Cursor, c1: Cursor, t: Re, c2: Cursor)
    requires c.tok == TOr && Next(c) == Ok(c1) && Term(c1) == Ok((t, c2))
    ensures Alt(np, c) == Alt(Or(np, t), c2)
  {
  }

  /** Every pattern of the grammar is read as its tree. */
  lemma GrammarReads(p: Written)
    requires Grammar(p, [])
    ensures Reparse(Print(p)) == Ok(TreeOf(p))
  {
    PatternReads(p, [], Cursor(TEnd, []));
    assert Print(p) + [] == Print(p);
  }

  // ----- Whatever is read is such a pattern.

  /** `s` begins with `p`, which stands for `t`, and goes on with `r`, which begins with the token `c`. */
  predicate Covers(s: seq<nat>, p: Written, r: seq<nat>, c: Cursor, t: Re) {
    s == Print(p) + r && Lex(r) == Ok(c) && Grammar(p, r) && TreeOf(p) == t
  }

  lemma LetterSplits(s: seq<nat>) returns (w: Spelling)
    requires Lex(s).Ok? && Lex(s).value.tok.TChar?
    ensures var c := Lex(s).value;
            s == Text(w) + c.rest && Spelled(w, c.rest) && (w.Bare? ==> Ordinary(w.c)) && Value(w) == c.tok.c
  {
    hide ClassText, Quoted;
    assert s == [s[0]] + s[1..];
    if s[0] == '\\' as nat { w := QuotedSplits(s[1..]); } else { w := Bare(s[0]); }
  }

  lemma BracketSplits(s: seq<nat>) returns (p: Written)
    requires Lex(s).Ok? && (Lex(s).value.tok.TCcl? || Lex(s).value.tok.TNccl?)
    ensures var c := Lex(s).value;
            && p.Bracket? && s == Print(p) + c.rest && Grammar(p, c.rest)
            && p.raw == c.tok.raw && p.negated == c.tok.TNccl?
  {
    hide ClassText, Quoted;
    var t := s[1..];
    assert s == [s[0]] + t;
    var rest := Lex(s).value.rest;
    if t != [] && t[0] == '^' as nat {
      assert t == [t[0]] + t[1..];
      var raw := ClassSplits(t[1..]);
      p := Bracket(true, raw);
      assert Print(p) + rest == ['[' as nat, '^' as nat] + (raw + ([']' as nat] + rest));
    } else {
      var raw := ClassSplits(t);
      p := Bracket(false, raw);
      assert Print(p) + rest == ['[' as nat] + (raw + ([']' as nat] + rest));
      assert t[0] == raw[0];
    }
  }

  lemma OneSplits(c: char, s: seq<nat>)
    requires c in "|*+?.^$()" && Lex(s).Ok? && Lex(s).value.tok == TokenOf(c)
    ensures s == [c as nat] + Lex(s).value.rest
  {
    assert s != [] ==> s == [s[0]] + s[1..];
  }

  lemma {:induction false} UnaryCovers(s: seq<nat>, p0: Written, r0: seq<nat>, c: Cursor, t0: Re)
    returns (p: Written, r: seq<nat>)
    requires Rank(p0) == 2 && Covers(s, p0, r0, c, t0) && Unary(t0, c).Ok?
    ensures var (t, c1) := Unary(t0, c).value;
            Rank(p) == 2 && Covers(s, p, r, c1, t) && !Postfix(c1.tok) && CaretFirst(p) == CaretFirst(p0)
    decreases Size(c)
  {
    if Postfix(c.tok) {
      var op := if c.tok.TStar? then '*' else if c.tok.TPlus? then '+' else '?';
      OneSplits(op, r0);
      Assoc(Print(p0), [op as nat], c.rest);
      var p1 := Post(p0, op);
      PostRead(t0, op, c.rest, Next(c).value);
      p, r := UnaryCovers(s, p1, c.rest, Next(c).value, TreeOf(p1));
    } else {
      p, r := p0, r0;
    }
  }

  /** One leaf, up to the token behind it. */
  lemma LeafCovers(s: seq<nat>) returns (p: Written)
    requires Lex(s).Ok? && (Concatenates(Lex(s).value.tok) || Lex(s).value.tok.THat?) && !Lex(s).value.tok.TOpen?
    ensures var c := Lex(s).value;
            && Rank(p) == 2 && s == Print(p) + c.rest && Grammar(p, c.rest)
            && CaretFirst(p) == c.tok.THat? && Primary(c) == ThenUnary(TreeOf(p), c)
  {
    hide Lex;
    var c := Lex(s).value;
    match c.tok
    case TChar(_) => var w := LetterSplits(s); p := Letter(w);
    case TDot => OneSplits('.', s); p := Period;
    case THat => OneSplits('^', s); p := Caret;
    case TDollar => OneSplits('$', s); p := Dollar;
    case _ => p := BracketSplits(s);
  }

  lemma {:induction false} PrimaryCovers(s: seq<nat>, c: Cursor) returns (p: Written, r: seq<nat>)
    requires Lex(s) == Ok(c) && Primary(c).Ok?
    ensures var (t, c1) := Primary(c).value;
            Rank(p) == 2 && Covers(s, p, r, c1, t) && !Postfix(c1.tok) && CaretFirst(p) == c.tok.THat?
    decreases Size(c), 0
  {
    hide Lex, Unary, CaretFirst;
    if c.tok.TOpen? {
      var p0, r0 := OpenCovers(s, c);
      p, r := UnaryCovers(s, p0, r0, Lex(r0).value, TreeOf(p0));
    } else {
      var p0 := LeafCovers(s);
      p, r := UnaryCovers(s, p0, c.rest, Next(c).value, TreeOf(p0));
    }
  }

  /** Parentheses. */
  lemma {:induction false} OpenCovers(s: seq<nat>, c: Cursor) returns (p: Written, r: seq<nat>)
    requires Lex(s) == Ok(c) && Primary(c).Ok? && c.tok.TOpen?
    ensures Lex(r).Ok? && Rank(p) == 2 && Covers(s, p, r, Lex(r).value, TreeOf(p)) && !CaretFirst(p)
    ensures Primary(c) == Unary(TreeOf(p), Lex(r).value)
    decreases Size(c), 0, 0
  {
    hide Lex, Unary;
    OneSplits('(', s);
    var c1 := Next(c).value;
    if c1.tok.TClose? {
      OneSplits(')', c.rest);
      p, r := Blank, c1.rest;
    } else {
      var a, r1 := RegexpCovers(c.rest, c1);
      var c2 := Regexp(c1).value.1;
      OneSplits(')', r1);
      p, r := Paren(a), c2.rest;
      Assoc(Print(a), [')' as nat], r);
      Assoc(['(' as nat], Print(a) + [')' as nat], r);
    }
  }

  lemma {:induction false} ConcatCovers(s: seq<nat>, p0: Written, r0: seq<nat>, c: Cursor, t0: Re)
    returns (p: Written, r: seq<nat>)
    requires Rank(p0) >= 1 && Covers(s, p0, r0, c, t0) && !Postfix(c.tok) && Concat(t0, c).Ok?
    ensures var (t, c1) := Concat(t0, c).value;
            Rank(p) >= 1 && Covers(s, p, r, c1, t) && !Postfix(c1.tok) && !Concatenates(c1.tok)
    decreases Size(c), 1
  {
    hide Lex, Unary, Primary, CaretFirst;
    if Concatenates(c.tok) {
      var p1, r1 := PrimaryCovers(r0, c);
      Assoc(Print(p0), Print(p1), r1);
      var (t1, c1) := Primary(c).value;
      p, r := ConcatCovers(s, Juxta(p0, p1), r1, c1, Cat(t0, t1));
    } else {
      p, r := p0, r0;
    }
  }

  lemma {:induction false} TermCovers(s: seq<nat>, c: Cursor) returns (p: Written, r: seq<nat>)
    requires Lex(s) == Ok(c) && Term(c).Ok?
    ensures var (t, c1) := Term(c).value;
            Rank(p) >= 1 && Covers(s, p, r, c1, t) && !Postfix(c1.tok) && !Concatenates(c1.tok)
    decreases Size(c), 2
  {
    var p0, r0 := PrimaryCovers(s, c);
    var (t, c1) := Primary(c).value;
    p, r := ConcatCovers(s, p0, r0, c1, t);
  }

  lemma {:induction false} AltCovers(s: seq<nat>, p0: Written, r0: seq<nat>, c: Cursor, t0: Re)
    returns (p: Written, r: seq<nat>)
    requires Covers(s, p0, r0, c, t0) && !Postfix(c.tok) && !Concatenates(c.tok) && Alt(t0, c).Ok?
    ensures var (t, c1) := Alt(t0, c).value;
            Covers(s, p, r, c1, t) && !Postfix(c1.tok) && !Concatenates(c1.tok) && !c1.tok.TOr?
    decreases Size(c), 3
  {
    hide Lex, Unary, Primary, Concat;
    if c.tok == TOr {
      OneSplits('|', r0);
      var c1 := Next(c).value;
      var p1, r1 := TermCovers(c.rest, c1);
      var (t1, c2) := Term(c1).value;
      Assoc(['|' as nat], Print(p1), r1);
      Assoc(Print(p0), ['|' as nat] + Print(p1), r1);
      AltOnce(t0, c, c1, t1, c2);
      p, r := AltCovers(s, Either(p0, p1), r1, c2, Or(t0, t1));
    } else {
      p, r := p0, r0;
    }
  }

  lemma {:induction false} RegexpCovers(s: seq<nat>, c: Cursor) returns (p: Written, r: seq<nat>)
    requires Lex(s) == Ok(c) && Regexp(c).Ok?
    ensures var (t, c1) := Regexp(c).value; Covers(s, p, r, c1, t)
    decreases Size(c), 4
  {
    var p0, r0 := TermCovers(s, c);
    var (t, c1) := Term(c).value;
    p, r := AltCovers(s, p0, r0, c1, t);
  }

  /** MAIN: the parser accepts exactly the patterns of the grammar, and reads each as its tree. */
  lemma ReparseIff(s: seq<nat>, t: Re)
    ensures Reparse(s) == Ok(t) <==> exists p :: Grammar(p, []) && Print(p) == s && TreeOf(p) == t
  {
    hide Grammar, Print, TreeOf, Regexp;
    if Reparse(s) == Ok(t) {
      var p, r := RegexpCovers(s, Lex(s).value);
      assert r == [] && Print(p) + [] == Print(p);
    }
    if p :| Grammar(p, []) && Print(p) == s && TreeOf(p) == t { GrammarReads(p); }
  }

  // ----- What a leaf stands for.

  /** MAIN: a character stands for itself, a period for any character, a caret for the mark in front
      of the text, a dollar for its end. */
  lemma LeavesMean(w: Spelling, x: seq<Symbol>)
    ensures Lang(TreeOf(Letter(w)), x) <==> x == [Value(w)] && Value(w) != 257
    ensures Lang(TreeOf(Period), x) <==> |x| == 1 && (0 < x[0] < 256 || x[0] > 257)
    ensures Lang(TreeOf(Caret), x) <==> x == [256]
    ensures Lang(TreeOf(Dollar), x) <==> x == [0]
    ensures Lang(TreeOf(Blank), x) <==> x == []
  {
  }

  /** MAIN: of the words of characters, a bracket stands for the single ones that its items list, or
      do not list if it is negated; but one that lists nothing stands for the empty word. */
  lemma BracketMeans(items: seq<Item>, negated: bool, x: seq<Symbol>)
    requires Items(items, true) && forall i :: 0 <= i < |x| ==> 0 < x[i] < 256
    ensures Lang(TreeOf(Bracket(negated, ItemsText(items))), x) <==>
            if !negated && (forall c: nat :: 0 < c < 256 ==> !Named(items, c)) then x == []
            else |x| == 1 && (Named(items, x[0]) <==> !negated)
  {
    hide Listed, ItemsText, Items, Named, ClassMembers;
    ClassListed(items);
    var m := Listed(items);
    forall c: nat ensures c in m <==> 0 < c < 256 && Named(items, c) { ListedIff(items, c); }
    if m != [] { assert m[0] in m; }
  }
}
