/** Expressions of m4 as written down, spaces and spellings included, and the theorem that the
    evaluator returns the value of every expression of its grammar. */
module M4Grammar {
  import opened M4Eval
  import opened M4Chars

  /** `ws` is the white space in front of a token. */
  datatype Expr =
    | Num(ws: string, digits: string)
    | Chars(ws: string, items: seq<Item>)
    | Paren(ws: string, inner: Expr, ws2: string)
    | Sign(ws: string, sign: char, arg: Expr)
    | Raise(base: Expr, ws: string, caret: bool, exponent: Expr)
    | Not(ws: string, arg: Expr)
    | Bin(left: Expr, ws: string, op: Op, right: Expr)
    | Cond(test: Expr, ws: string, yes: Expr, ws2: string, no: Expr)

  function OpLevel(op: Op): nat {
    match op
    case LOr(_) => 1
    case LAnd(_) => 2
    case Eq(_) => 4
    case Ne => 4
    case Lt => 4
    case Le => 4
    case Gt => 4
    case Ge => 4
    case Shl => 5
    case Shr => 5
    case Add => 6
    case Sub => 6
    case Mul => 7
    case Div => 7
    case Mod => 7
  }

  function OpText(op: Op): (s: string)
    ensures 0 < |s| <= 2
  {
    match op
    case LOr(double) => if double then "||" else "|"
    case LAnd(double) => if double then "&&" else "&"
    case Eq(double) => if double then "==" else "="
    case Ne => "!="
    case Lt => "<"
    case Le => "<="
    case Gt => ">"
    case Ge => ">="
    case Shl => "<<"
    case Shr => ">>"
    case Add => "+"
    case Sub => "-"
    case Mul => "*"
    case Div => "/"
    case Mod => "%"
  }

  /** The level at which an expression is written. */
  function Rank(e: Expr): nat {
    match e
    case Num(_, _) => 9
    case Chars(_, _) => 9
    case Paren(_, _, _) => 9
    case Sign(_, _, _) => 9
    case Raise(_, _, _, _) => 8
    case Not(_, _) => 3
    case Bin(_, _, op, _) => OpLevel(op)
    case Cond(_, _, _, _, _) => 0
  }

  predicate Spaces(ws: string) {
    forall i :: 0 <= i < |ws| ==> White(ws[i])
  }

  /** The grammar: operands are of the level their operator asks for; binary operators
      associate to the left, the power operator and the conditional to the right. */
  predicate Grammar(e: Expr) {
    match e
    case Num(ws, digits) => Spaces(ws) && digits != "" && AllDigits(digits, Base(digits))
    case Chars(ws, items) => Spaces(ws) && 0 < |items| <= 4 && ItemsOk(items)
    case Paren(ws, inner, ws2) => Spaces(ws) && Spaces(ws2) && Grammar(inner)
    case Sign(ws, sign, arg) => Spaces(ws) && sign in {'+', '-', '~'} && Grammar(arg) && Rank(arg) == 9
    case Raise(base, ws, _, exponent) =>
      Spaces(ws) && Grammar(base) && Rank(base) == 9 && Grammar(exponent) && Rank(exponent) >= 8
    case Not(ws, arg) => Spaces(ws) && Grammar(arg) && Rank(arg) >= 3
    case Bin(l, ws, op, r) => Spaces(ws) && Grammar(l) && Rank(l) >= OpLevel(op) && Grammar(r) && Rank(r) > OpLevel(op)
    case Cond(test, ws, yes, ws2, no) =>
      Spaces(ws) && Spaces(ws2) && Grammar(test) && Rank(test) >= 1 && Grammar(yes) && Grammar(no)
  }

  function Print(e: Expr): string {
    match e
    case Num(ws, digits) => ws + digits
    case Chars(ws, items) => ws + ("'" + (ItemsText(items) + "'"))
    case Paren(ws, inner, ws2) => ws + ("(" + (Print(inner) + (ws2 + ")")))
    case Sign(ws, sign, arg) => ws + ([sign] + Print(arg))
    case Raise(base, ws, caret, exponent) => Print(base) + (ws + ((if caret then "^" else "**") + Print(exponent)))
    case Not(ws, arg) => ws + ("!" + Print(arg))
    case Bin(l, ws, op, r) => Print(l) + (ws + (OpText(op) + Print(r)))
    case Cond(test, ws, yes, ws2, no) => Print(test) + (ws + ("?" + (Print(yes) + (ws2 + (":" + Print(no))))))
  }

  function Both(op: Op, l: Value, r: Value): Value {
    match l
    case Fail(x) => Fail(x)
    case Val(v) => match r case Fail(x) => Fail(x) case Val(w) => Apply(op, v, w)
  }

  function Powered(b: Value, e: Value): Value {
    match b
    case Fail(x) => Fail(x)
    case Val(v) => match e case Fail(x) => Fail(x) case Val(w) => Val(Power(v, w))
  }

  function Choice(b: Value, v: Value, w: Value): Value {
    match b
    case Fail(x) => Fail(x)
    case Val(test) =>
      match v
      case Fail(x) => Fail(x)
      case Val(_) => match w case Fail(x) => Fail(x) case Val(_) => if test != 0 then v else w
  }

  /** The value: all operands are evaluated, from left to right, even those that the result
      does not depend on. */
  function Meaning(e: Expr): Value {
    match e
    case Num(_, digits) => Val(Digits(digits, Base(digits), 0).0)
    case Chars(_, items) => Val(ItemsValue(items))
    case Paren(_, inner, _) => Meaning(inner)
    case Sign(_, sign, arg) =>
      (match Meaning(arg) case Fail(x) => Fail(x) case Val(v) => Val(Negate(sign, v)))
    case Raise(base, _, _, exponent) => Powered(Meaning(base), Meaning(exponent))
    case Not(_, arg) =>
      (match Meaning(arg) case Fail(x) => Fail(x) case Val(v) => Val(Truth(v == 0)))
    case Bin(l, _, op, r) => Both(op, Meaning(l), Meaning(r))
    case Cond(test, _, yes, _, no) => Choice(Meaning(test), Meaning(yes), Meaning(no))
  }

  // ----- What can follow an expression of a level, and how one begins.

  predicate DigitFree(r: string) {
    r == "" || !IsDigit(r[0], 10)
  }

  /** No operator of the level `k` or a higher one, in front of which an expression of level
      `k` would go on. */
  predicate Stops(k: nat, r: string) {
    var t := Skip(r);
    && DigitFree(r)
    && (k <= 8 ==> ReadPower(t) == 0)
    && (forall j: nat :: k <= j <= 9 && IsBinary(j) ==> ReadOp(j, t).NoOp?)
    && (k == 0 ==> !Begins(t, '?'))
  }

  predicate Starter(c: char) {
    White(c) || IsDigit(c, 10) || c == '(' || c == '\'' || c == '+' || c == '-' || c == '~' || c == '!'
  }

  lemma {:induction false} PrintStarts(e: Expr)
    requires Grammar(e)
    ensures Print(e) != "" && Starter(Print(e)[0])
    ensures Rank(e) > 3 ==> Print(e)[0] != '!'
  {
    match e
    case Num(ws, digits) => assert IsDigit(digits[0], Base(digits));
    case Chars(_, _) =>
    case Paren(_, _, _) =>
    case Sign(_, _, _) =>
    case Raise(base, _, _, _) => PrintStarts(base);
    case Not(_, _) =>
    case Bin(l, _, _, _) => PrintStarts(l);
    case Cond(test, _, _, _, _) => PrintStarts(test);
  }

  lemma {:induction false} SkipSpaces(ws: string, s: string)
    requires Spaces(ws)
    ensures Skip(ws + s) == Skip(s)
  {
    if ws == "" {
      assert ws + s == s;
    } else {
      assert (ws + s)[1..] == ws[1..] + s;
      SkipSpaces(ws[1..], s);
    }
  }

  lemma SkipTwice(s: string)
    ensures Skip(Skip(s)) == Skip(s)
  {
    var t := Skip(s);
    if t != "" { assert !White(t[0]); }
  }

  // ----- Operators read back.

  /** An operator in front of an operand is read as that operator, and as none of a higher level. */
  lemma OpRead(op: Op, x: string)
    requires x != "" && Starter(x[0]) && (OpLevel(op) > 2 ==> x[0] != '!')
    ensures var s := OpText(op) + x;
            && ReadOp(OpLevel(op), s) == Read(op, |OpText(op)|)
            && ReadPower(s) == 0 && s[|OpText(op)|..] == x && Skip(s) == s
            && (forall j: nat :: OpLevel(op) < j <= 9 && IsBinary(j) ==> ReadOp(j, s).NoOp?)
            && !IsDigit(s[0], 10)
  {
    var s, o := OpText(op) + x, OpText(op);
    assert s[0] == o[0] && s[1] == if |o| == 2 then o[1] else x[0];
  }

  /** What follows the left operand of an operator lets that operand end there. */
  lemma OperatorStops(op: Op, ws: string, x: string)
    requires Spaces(ws) && x != "" && Starter(x[0]) && (OpLevel(op) > 2 ==> x[0] != '!')
    ensures Stops(OpLevel(op) + 1, ws + (OpText(op) + x)) && Skip(ws + (OpText(op) + x)) == OpText(op) + x
  {
    OpRead(op, x);
    SkipSpaces(ws, OpText(op) + x);
    if ws != "" { assert (ws + (OpText(op) + x))[0] == ws[0]; } else { assert ws + (OpText(op) + x) == OpText(op) + x; }
  }

  lemma NoOperator(c: char, x: string, k: nat)
    requires c == ')' || c == ':' || c == '?'
    ensures ReadPower([c] + x) == 0 && ReadOp(k, [c] + x).NoOp?
  {
    assert ([c] + x)[0] == c;
  }

  /** A token that is no operator lets everything end. */
  lemma PunctuationStops(ws: string, c: char, x: string, k: nat)
    requires Spaces(ws) && (c == ')' || c == ':' || (c == '?' && k > 0))
    ensures Stops(k, ws + ([c] + x)) && Skip(ws + ([c] + x)) == [c] + x
  {
    hide ReadOp, ReadPower;
    var t := [c] + x;
    assert t[0] == c;
    SkipSpaces(ws, t);
    assert Skip(t) == t;
    assert DigitFree(ws + t) by {
      if ws != "" { assert (ws + t)[0] == ws[0]; } else { assert ws + t == t; }
    }
    NoOperator(c, x, 0);
    forall j: nat ensures ReadOp(j, t).NoOp? { NoOperator(c, x, j); }
    assert Skip(ws + t) == t;
    assert !Begins(t, '?') || k > 0;
  }

  /** The first token of an expression. */
  lemma {:induction false} FirstToken(e: Expr, r: string)
    requires Grammar(e)
    ensures var t := Skip(Print(e) + r);
            t != "" && !White(t[0]) && Starter(t[0]) && (Rank(e) > 3 ==> t[0] != '!')
  {
    match e
    case Num(ws, digits) => Assoc(ws, digits, r); SkipSpaces(ws, digits + r);
    case Chars(ws, items) =>
      var x := "'" + (ItemsText(items) + "'");
      Assoc(ws, x, r); SkipSpaces(ws, x + r);
    case Paren(ws, inner, ws2) =>
      var x := "(" + (Print(inner) + (ws2 + ")"));
      Assoc(ws, x, r); SkipSpaces(ws, x + r);
    case Sign(ws, sign, arg) => Assoc(ws, [sign] + Print(arg), r); SkipSpaces(ws, ([sign] + Print(arg)) + r);
    case Raise(base, ws, caret, exponent) =>
      var x := ws + ((if caret then "^" else "**") + Print(exponent));
      Assoc(Print(base), x, r); FirstToken(base, x + r);
    case Not(ws, arg) => Assoc(ws, "!" + Print(arg), r); SkipSpaces(ws, ("!" + Print(arg)) + r);
    case Bin(l, ws, op, rr) =>
      var x := ws + (OpText(op) + Print(rr));
      Assoc(Print(l), x, r); FirstToken(l, x + r);
    case Cond(test, ws, yes, ws2, no) =>
      var x := ws + ("?" + (Print(yes) + (ws2 + (":" + Print(no)))));
      Assoc(Print(test), x, r); FirstToken(test, x + r);
  }

  // ----- The theorem, level by level.

  function Done(m: Value, rest: string): Parsed {
    match m case Val(v) => Ok(v, rest) case Fail(e) => Err(e)
  }

  function After(k: nat, r: string): string {
    if k == 9 then r else Skip(r)
  }

  /** Every nonterminal begins by skipping white space. */
  lemma {:induction false} ParseSkips(k: nat, s: string)
    requires 3 <= k <= 9
    ensures Parse(k, Skip(s)) == Parse(k, s)
    decreases 9 - k
  {
    SkipTwice(s);
    if k < 9 { ParseSkips(k + 1, s); }
  }

  /** The value so far goes into the loop of its level. */
  function ThenTail(k: nat, m: Value, r: string): Parsed
    requires IsBinary(k)
  {
    match m case Val(v) => Tail(k, v, r) case Fail(e) => Err(e)
  }

  lemma TailStops(k: nat, m: Value, r: string)
    requires IsBinary(k) && ReadOp(k, Skip(r)).NoOp?
    ensures ThenTail(k, m, r) == Done(m, Skip(r)) && ThenTail(k, m, Skip(r)) == Done(m, Skip(r))
  {
    SkipTwice(r);
  }

  /** MAIN, for every level: in front of text that does not go on with an operator of that level
      or a higher one, the nonterminal reads exactly the expression, returns its value, and
      leaves the cursor behind it and the white space that follows. */
  lemma {:induction false} Reads(e: Expr, k: nat, r: string)
    requires Grammar(e) && k <= 9 && Rank(e) >= k && Stops(k, r)
    ensures Parse(k, Print(e) + r) == Done(Meaning(e), After(k, r))
    decreases e, 1, 9 - k, 1
  {
    if k == 9 {
      ReadsUnary(e, r);
    } else if k == 8 {
      if Rank(e) == 8 { ReadsPower(e, r); } else { Reads(e, 9, r); }
    } else if IsBinary(k) {
      Spine(e, k, r);
      TailStops(k, Meaning(e), r);
    } else if k == 3 {
      if Rank(e) == 3 { ReadsNot(e, r); } else { ReadsPlain(e, r); }
    } else {
      ReadsQuery(e, r);
    }
  }

  lemma {:induction false} ReadsUnary(e: Expr, r: string)
    requires Grammar(e) && Rank(e) == 9 && Stops(9, r)
    ensures Parse(9, Print(e) + r) == Done(Meaning(e), r)
    decreases e, 0, 0
  {
    match e
    case Num(ws, digits) =>
      Assoc(ws, digits, r);
      SkipSpaces(ws, digits + r);
      assert (digits + r)[0] == digits[0] && IsDigit(digits[0], 10);
      DigitsStop(digits, Base(digits), 0, r);
    case Chars(ws, items) =>
      ReadsChars(ws, items, r);
    case Paren(ws, inner, ws2) =>
      ReadsParen(ws, inner, ws2, r);
    case Sign(ws, sign, arg) =>
      var x := [sign] + Print(arg);
      Assoc(ws, x, r);
      SkipSpaces(ws, x + r);
      Assoc([sign], Print(arg), r);
      assert ([sign] + (Print(arg) + r))[1..] == Print(arg) + r;
      Reads(arg, 9, r);
  }

  lemma CharsText(w: string, items: seq<Item>, r: string)
    ensures Print(Chars(w, items)) + r == w + ("'" + (ItemsText(items) + ("'" + r)))
  {
    var z := ItemsText(items);
    Assoc(w, "'" + (z + "'"), r);
    Assoc("'", z + "'", r);
    Assoc(z, "'", r);
  }

  lemma ReadsChars(ws: string, items: seq<Item>, r: string)
    requires Grammar(Chars(ws, items))
    ensures Parse(9, Print(Chars(ws, items)) + r) == Ok(ItemsValue(items), r)
  {
    hide Print, ItemsOk, ItemsText, ItemsValue, Quoted, Skip;
    var y := ItemsText(items) + ("'" + r);
    CharsText(ws, items, r);
    SkipSpaces(ws, "'" + y);
    QuoteFirst(y);
    ReadsItems(items, 4, r);
  }

  lemma QuoteFirst(y: string)
    ensures Skip("'" + y) == "'" + y && ("'" + y)[1..] == y && Parse(9, "'" + y) == Quoted(y, 4)
  {
  }

  lemma {:induction false} ReadsParen(ws: string, inner: Expr, ws2: string, r: string)
    requires Grammar(Paren(ws, inner, ws2))
    ensures Parse(9, Print(Paren(ws, inner, ws2)) + r) == Done(Meaning(inner), r)
    decreases inner, 2, 0
  {
    var tail := ws2 + (")" + r);
    var x := "(" + (Print(inner) + tail);
    assert Print(Paren(ws, inner, ws2)) + r == ws + x;
    SkipSpaces(ws, x);
    assert x[1..] == Print(inner) + tail;
    PunctuationStops(ws2, ')', r, 0);
    Reads(inner, 0, tail);
    assert (")" + r)[1..] == r;
  }

  lemma RaiseText(b: Expr, w: string, caret: bool, x: Expr, r: string)
    ensures Print(Raise(b, w, caret, x)) + r == Print(b) + (w + ((if caret then "^" else "**") + (Print(x) + r)))
  {
    var op := if caret then "^" else "**";
    Assoc(Print(b), w + (op + Print(x)), r);
    Assoc(w, op + Print(x), r);
    Assoc(op, Print(x), r);
  }

  /** `exp` with two operands whose texts are read as `b` and `w`. */
  lemma PowerStep(s: string, r0: string, x: string, n: nat, y: string, r: string, b: Value, w: Value)
    requires Parse(9, s) == Done(b, r0) && Skip(r0) == x && ReadPower(x) == n && n > 0 && x[n..] == y
    requires Parse(8, y) == Done(w, r)
    ensures Parse(8, s) == Done(Powered(b, w), r)
  {
  }

  lemma {:induction false} ReadsPower(e: Expr, r: string)
    requires Grammar(e) && e.Raise? && Stops(8, r)
    ensures Parse(8, Print(e) + r) == Done(Meaning(e), Skip(r))
    decreases e, 0, 0
  {
    hide Stops, Print, ReadPower, Parse, Skip;
    var op := if e.caret then "^" else "**";
    var y := Print(e.exponent) + r;
    RaiseText(e.base, e.ws, e.caret, e.exponent, r);
    PowerStops(e.ws, e.caret, y);
    Reads(e.base, 9, e.ws + (op + y));
    Reads(e.exponent, 8, r);
    PowerStep(Print(e) + r, e.ws + (op + y), op + y, |op|, y, Skip(r), Meaning(e.base), Meaning(e.exponent));
  }

  lemma PowerStops(ws: string, caret: bool, y: string)
    requires Spaces(ws)
    ensures var op := if caret then "^" else "**"; var x := op + y;
            Stops(9, ws + x) && Skip(ws + x) == x && ReadPower(x) == |op| && x[|op|..] == y
  {
    var x := (if caret then "^" else "**") + y;
    SkipSpaces(ws, x);
    if ws != "" { assert (ws + x)[0] == ws[0]; } else { assert ws + x == x; }
  }

  lemma {:induction false} ReadsNot(e: Expr, r: string)
    requires Grammar(e) && e.Not? && Stops(3, r)
    ensures Parse(3, Print(e) + r) == Done(Meaning(e), Skip(r))
    decreases e, 0, 0
  {
    var y := Print(e.arg) + r;
    var x := "!" + y;
    assert Print(e) + r == e.ws + x;
    SkipSpaces(e.ws, x);
    PrintStarts(e.arg);
    assert x[1..] == y && x[1] == Print(e.arg)[0];
    Reads(e.arg, 3, r);
  }

  lemma {:induction false} ReadsPlain(e: Expr, r: string)
    requires Grammar(e) && Rank(e) > 3 && Stops(3, r)
    ensures Parse(3, Print(e) + r) == Done(Meaning(e), Skip(r))
    decreases e, 1, 6, 0
  {
    FirstToken(e, r);
    ParseSkips(4, Print(e) + r);
    Reads(e, 4, r);
  }

  /** One round of the loop of a binary level. */
  lemma TailStep(k: nat, v: int, s: string, read: Read, y: string, m: Value, r: string)
    requires IsBinary(k) && read.Read? && ReadOp(k, Skip(s)) == read && Skip(s)[read.len..] == y
    requires Parse(k + 1, y) == Done(m, r)
    ensures Tail(k, v, s) == ThenTail(k, Both(read.op, Val(v), m), r)
  {
  }

  /** The left operand's value is what the loop goes on with. */
  lemma SpineStep(k: nat, op: Op, l: Value, m: Value, s: string, y: string, r: string)
    requires IsBinary(k) && OpLevel(op) == k
    requires y != "" && Starter(y[0]) && (k > 2 ==> y[0] != '!')
    requires Skip(s) == OpText(op) + y
    requires Parse(k + 1, y) == Done(m, Skip(r))
    ensures ThenTail(k, l, s) == ThenTail(k, Both(op, l, m), r)
  {
    if l.Val? {
      OpRead(op, y);
      TailStep(k, l.v, s, Read(op, |OpText(op)|), y, m, Skip(r));
      TailSkips(k, Both(op, l, m), r);
    }
  }

  lemma TailSkips(k: nat, m: Value, r: string)
    requires IsBinary(k)
    ensures ThenTail(k, m, Skip(r)) == ThenTail(k, m, r)
  {
    SkipTwice(r);
  }

  lemma BinText(l: Expr, ws: string, op: Op, right: Expr, r: string)
    ensures Print(Bin(l, ws, op, right)) + r == Print(l) + (ws + (OpText(op) + (Print(right) + r)))
  {
    var x := OpText(op) + Print(right);
    Assoc(Print(l), ws + x, r);
    Assoc(ws, x, r);
    Assoc(OpText(op), Print(right), r);
  }

  lemma ThroughLevel(k: nat, s: string, m: Value, r: string)
    requires IsBinary(k) && Parse(k + 1, s) == Done(m, Skip(r))
    ensures Parse(k, s) == ThenTail(k, m, r)
  {
    TailSkips(k, m, r);
  }

  /** Left-associative operators: what the loop of a level is handed. */
  lemma {:induction false} Spine(e: Expr, k: nat, r: string)
    requires Grammar(e) && IsBinary(k) && Rank(e) >= k && Stops(k + 1, r)
    ensures Parse(k, Print(e) + r) == ThenTail(k, Meaning(e), r)
    decreases e, 1, 9 - k, 0
  {
    hide Parse, Stops, Print;
    if Rank(e) > k {
      Reads(e, k + 1, r);
      ThroughLevel(k, Print(e) + r, Meaning(e), r);
    } else {
      SpineBin(e.left, e.ws, e.op, e.right, k, r);
    }
  }

  lemma {:induction false} SpineBin(l: Expr, ws: string, op: Op, right: Expr, k: nat, r: string)
    requires Grammar(Bin(l, ws, op, right)) && IsBinary(k) && OpLevel(op) == k && Stops(k + 1, r)
    ensures Parse(k, Print(Bin(l, ws, op, right)) + r) == ThenTail(k, Both(op, Meaning(l), Meaning(right)), r)
    decreases Bin(l, ws, op, right), 0, 0
  {
    var y := Print(right) + r;
    BinText(l, ws, op, right, r);
    PrintStarts(right);
    assert y[0] == Print(right)[0];
    OperatorStops(op, ws, y);
    Spine(l, k, ws + (OpText(op) + y));
    Reads(right, k + 1, r);
    SpineStep(k, op, Meaning(l), Meaning(right), ws + (OpText(op) + y), y, r);
  }

  lemma CondText(e: Expr, r: string)
    requires e.Cond?
    ensures Print(e) + r == Print(e.test) + (e.ws + ("?" + (Print(e.yes) + (e.ws2 + (":" + (Print(e.no) + r))))))
  {
    var x3 := ":" + Print(e.no);
    var x2 := Print(e.yes) + (e.ws2 + x3);
    Assoc(Print(e.test), e.ws + ("?" + x2), r);
    Assoc(e.ws, "?" + x2, r);
    Assoc("?", x2, r);
    Assoc(Print(e.yes), e.ws2 + x3, r);
    Assoc(e.ws2, x3, r);
    Assoc(":", Print(e.no), r);
  }

  /** `query` with a test and two branches whose texts are read as `b`, `v` and `w`. */
  lemma QueryStep(s: string, r0: string, y: string, r1: string, z: string, r: string, b: Value, v: Value, w: Value)
    requires Parse(1, s) == Done(b, r0) && Skip(r0) == "?" + y
    requires Parse(0, y) == Done(v, r1) && Skip(r1) == ":" + z
    requires Parse(0, z) == Done(w, r)
    ensures Query(s) == Done(Choice(b, v, w), r)
  {
    assert ("?" + y)[1..] == y && (":" + z)[1..] == z;
  }

  lemma {:induction false} ReadsQuery(e: Expr, r: string)
    requires Grammar(e) && Stops(0, r)
    ensures Parse(0, Print(e) + r) == Done(Meaning(e), Skip(r))
    decreases e, 1, 9, 0
  {
    if Rank(e) > 0 {
      SkipTwice(r);
      Reads(e, 1, r);
    } else {
      ReadsCond(e, r);
    }
  }

  lemma {:induction false} ReadsCond(e: Expr, r: string)
    requires Grammar(e) && e.Cond? && Stops(0, r)
    ensures Parse(0, Print(e) + r) == Done(Choice(Meaning(e.test), Meaning(e.yes), Meaning(e.no)), Skip(r))
    decreases e, 0, 0
  {
    var z := Print(e.no) + r;
    var r1 := e.ws2 + (":" + z);
    var y := Print(e.yes) + r1;
    var r0 := e.ws + ("?" + y);
    CondText(e, r);
    PunctuationStops(e.ws, '?', y, 1);
    PunctuationStops(e.ws2, ':', z, 0);
    Reads(e.test, 1, r0);
    Reads(e.yes, 0, r1);
    Reads(e.no, 0, r);
    SkipTwice(r0);
    SkipTwice(r1);
    QueryStep(Print(e) + r, Skip(r0), y, Skip(r1), z, Skip(r), Meaning(e.test), Meaning(e.yes), Meaning(e.no));
  }

  /** MAIN: `expr` returns the value of every expression of the grammar, with white space
      around it; 0 (through an error) when a shift or a division in it is undefined. */
  lemma ExprIsMeaning(e: Expr, ws: string)
    requires Grammar(e) && Spaces(ws)
    ensures Evaluate(Print(e) + ws) == Meaning(e)
  {
    SkipSpaces(ws, "");
    assert ws + "" == ws;
    if ws != "" { assert White(ws[0]); }
    Reads(e, 0, ws);
  }
}
