/** Conditions as trees, their truth values, and the theorem that the parser computes them
    while consuming the same symbols whether it evaluates or not. */
module CondGrammar {
  import opened CondParse

  /** E -> F || E | F;  F -> T && F | T;  T -> atom | ! T | ( E ). */
  datatype Expr =
    | Leaf(holds: bool, unevaluated: bool)
    | Group(inner: Expr)
    | Negation(arg: Expr)
    | Both(left: Expr, right: Expr)
    | Either(left: Expr, right: Expr)

  /** 2 for a T, 1 for an F, 0 for an E. */
  function Rank(e: Expr): nat {
    match e case Either(_, _) => 0 case Both(_, _) => 1 case _ => 2
  }

  predicate Grammar(e: Expr) {
    match e
    case Leaf(_, _) => true
    case Group(inner) => Grammar(inner)
    case Negation(arg) => Grammar(arg) && Rank(arg) == 2
    case Both(l, r) => Grammar(l) && Rank(l) == 2 && Grammar(r) && Rank(r) >= 1
    case Either(l, r) => Grammar(l) && Rank(l) >= 1 && Grammar(r)
  }

  function Print(e: Expr): seq<Symbol> {
    match e
    case Leaf(holds, unevaluated) => [Atom(holds, unevaluated)]
    case Group(inner) => [Open] + (Print(inner) + [Close])
    case Negation(arg) => [NotSign] + Print(arg)
    case Both(l, r) => Print(l) + ([AndSign] + Print(r))
    case Either(l, r) => Print(l) + ([OrSign] + Print(r))
  }

  /** The truth value; without evaluation the one of the atoms' stand-ins. */
  function Meaning(e: Expr, doEval: bool): bool {
    match e
    case Leaf(holds, unevaluated) => if doEval then holds else unevaluated
    case Group(inner) => Meaning(inner, doEval)
    case Negation(arg) => !Meaning(arg, doEval)
    case Both(l, r) => Meaning(l, doEval) && Meaning(r, doEval)
    case Either(l, r) => Meaning(l, doEval) || Meaning(r, doEval)
  }

  /** The parser has looked at the first symbol of `s`, evaluating it or not, and has put it
      back. */
  predicate AtFirst(st: Stream, s: seq<Symbol>) {
    && st.text == Behind(s)
    && (st.slot == SymbolToken(s, true) || st.slot == SymbolToken(s, false))
  }

  predicate Operator(s: seq<Symbol>, sign: Symbol) {
    s != [] && s[0] == sign
  }

  lemma Assoc(a: seq<Symbol>, b: seq<Symbol>, c: seq<Symbol>)
    ensures (a + b) + c == a + (b + c)
  {
  }

  lemma First(x: Symbol, s: seq<Symbol>, doEval: bool)
    requires !x.Bad?
    ensures CondToken(Stream(None, [x] + s), doEval) == Result(SymbolToken([x], doEval), Stream(None, s))
  {
    assert ([x] + s)[1..] == s;
  }

  lemma Read(x: Symbol, s: seq<Symbol>, st: Stream, doEval: bool)
    requires AtFirst(st, [x] + s) && !x.Bad? && !x.Atom?
    ensures CondToken(st, doEval) == Result(SymbolToken([x], doEval), Stream(None, s))
  {
    assert ([x] + s)[1..] == s;
  }

  // ----- One production at a time.

  lemma GroupStep(y: seq<Symbol>, m: bool, r: seq<Symbol>, doEval: bool)
    requires var inner := CondE(Stream(None, y), doEval); inner.t == Truth(m) && AtFirst(inner.left, [Close] + r)
    ensures CondT(Stream(None, [Open] + y), doEval) == Result(Truth(m), Stream(None, r))
  {
    First(Open, y, doEval);
    Read(Close, r, CondE(Stream(None, y), doEval).left, doEval);
  }

  lemma NotStep(y: seq<Symbol>, m: bool, r: seq<Symbol>, doEval: bool)
    requires CondT(Stream(None, y), doEval) == Result(Truth(m), Stream(None, r))
    ensures CondT(Stream(None, [NotSign] + y), doEval) == Result(Truth(!m), Stream(None, r))
  {
    First(NotSign, y, doEval);
  }

  lemma FactorStep(y: seq<Symbol>, m: bool, r: seq<Symbol>, doEval: bool)
    requires CondT(Stream(None, y), doEval) == Result(Truth(m), Stream(None, r)) && !Operator(r, AndSign)
    ensures CondF(Stream(None, y), doEval).t == Truth(m) && AtFirst(CondF(Stream(None, y), doEval).left, r)
  {
  }

  lemma AndStep(y: seq<Symbol>, m: bool, x: seq<Symbol>, doEval: bool)
    requires CondT(Stream(None, y), doEval) == Result(Truth(m), Stream(None, [AndSign] + x))
    ensures CondF(Stream(None, y), doEval)
            == if m then CondF(Stream(None, x), doEval) else Result(False, CondF(Stream(None, x), false).left)
  {
    First(AndSign, x, doEval);
  }

  lemma TermStep(y: seq<Symbol>, m: bool, r: seq<Symbol>, doEval: bool)
    requires var l := CondF(Stream(None, y), doEval); l.t == Truth(m) && AtFirst(l.left, r) && !Operator(r, OrSign)
    ensures CondE(Stream(None, y), doEval).t == Truth(m) && AtFirst(CondE(Stream(None, y), doEval).left, r)
  {
  }

  lemma OrStep(y: seq<Symbol>, m: bool, x: seq<Symbol>, doEval: bool)
    requires var l := CondF(Stream(None, y), doEval); l.t == Truth(m) && AtFirst(l.left, [OrSign] + x)
    ensures CondE(Stream(None, y), doEval)
            == if m then Result(True, CondE(Stream(None, x), false).left) else CondE(Stream(None, x), doEval)
  {
    Read(OrSign, x, CondF(Stream(None, y), doEval).left, doEval);
  }

  lemma {:induction false} ReadsT(e: Expr, r: seq<Symbol>, doEval: bool)
    requires Grammar(e) && Rank(e) == 2
    ensures CondT(Stream(None, Print(e) + r), doEval) == Result(Truth(Meaning(e, doEval)), Stream(None, r))
    decreases e, 0
  {
    match e
    case Leaf(holds, unevaluated) => First(Atom(holds, unevaluated), r, doEval);
    case Group(inner) =>
      Assoc([Open], Print(inner) + [Close], r);
      Assoc(Print(inner), [Close], r);
      ReadsE(inner, [Close] + r, doEval);
      GroupStep(Print(inner) + ([Close] + r), Meaning(inner, doEval), r, doEval);
    case Negation(arg) =>
      Assoc([NotSign], Print(arg), r);
      ReadsT(arg, r, doEval);
      NotStep(Print(arg) + r, Meaning(arg, doEval), r, doEval);
  }

  /** A factor and what is behind it. */
  lemma {:induction false} ReadsF(e: Expr, r: seq<Symbol>, doEval: bool)
    requires Grammar(e) && Rank(e) >= 1 && !Operator(r, AndSign)
    ensures var result := CondF(Stream(None, Print(e) + r), doEval);
            result.t == Truth(Meaning(e, doEval)) && AtFirst(result.left, r)
    decreases e, 1
  {
    if Rank(e) == 2 {
      ReadsT(e, r, doEval);
      FactorStep(Print(e) + r, Meaning(e, doEval), r, doEval);
    } else {
      var x := Print(e.right) + r;
      Assoc(Print(e.left), [AndSign] + Print(e.right), r);
      Assoc([AndSign], Print(e.right), r);
      ReadsT(e.left, [AndSign] + x, doEval);
      AndStep(Print(e) + r, Meaning(e.left, doEval), x, doEval);
      ReadsF(e.right, r, doEval);
      ReadsF(e.right, r, false);
    }
  }

  /** MAIN: in front of anything but an operator, `CondE` returns the truth value of the
      expression, and it leaves the stream at the symbol behind the expression, that symbol
      being put back; the same symbols are consumed whether the expression is evaluated or
      skipped. */
  lemma {:induction false} ReadsE(e: Expr, r: seq<Symbol>, doEval: bool)
    requires Grammar(e) && !Operator(r, AndSign) && !Operator(r, OrSign)
    ensures var result := CondE(Stream(None, Print(e) + r), doEval);
            result.t == Truth(Meaning(e, doEval)) && AtFirst(result.left, r)
    decreases e, 2
  {
    if Rank(e) >= 1 {
      ReadsF(e, r, doEval);
      TermStep(Print(e) + r, Meaning(e, doEval), r, doEval);
    } else {
      var x := Print(e.right) + r;
      Assoc(Print(e.left), [OrSign] + Print(e.right), r);
      Assoc([OrSign], Print(e.right), r);
      ReadsF(e.left, [OrSign] + x, doEval);
      OrStep(Print(e) + r, Meaning(e.left, doEval), x, doEval);
      ReadsE(e.right, r, doEval);
      ReadsE(e.right, r, false);
    }
  }

  // ----- Whole conditions.

  datatype Condition = Invalid | Parsed(value: bool)

  /** `Cond_EvalExpression`: a result that is neither true nor false leaves the caller's value
      as it was. */
  function EvalExpression(s: seq<Symbol>, value: bool): Condition {
    var e := CondE(Stream(None, s), true);
    if e.t == True || e.t == False then
      if CondToken(e.left, true).t == EndOfFile then Parsed(e.t == True) else Invalid
    else if e.t == Err then Invalid
    else Parsed(value)
  }

  /** MAIN: a condition of the grammar is accepted with its truth value. */
  lemma ConditionMeans(e: Expr, value: bool)
    requires Grammar(e)
    ensures EvalExpression(Print(e), value) == Parsed(Meaning(e, true))
  {
    assert Print(e) + [] == Print(e);
    ReadsE(e, [], true);
  }

  predicate Stray(x: Symbol) {
    x == Close || x == AndSign || x == OrSign
  }

  function Negations(n: nat): seq<Symbol> {
    if n == 0 then [] else [NotSign] + Negations(n - 1)
  }

  /** The parser's comment says that every malformed condition yields `Err`. It does not: an
      operator or a closing parenthesis in the place of an operand is returned as the result,
      and the condition passes for one with the value that the caller began with. */
  lemma {:induction false} StrayOperandIsAccepted(n: nat, x: Symbol, r: seq<Symbol>, value: bool)
    requires Stray(x)
    ensures EvalExpression(Negations(n) + ([x] + r), value) == Parsed(value)
  {
    StrayOperand(n, x, r);
    var st := Stream(None, Negations(n) + ([x] + r));
    assert CondF(st, true).t == SymbolToken([x], true);
    assert CondE(st, true).t == SymbolToken([x], true);
  }

  lemma NotStray(y: seq<Symbol>, x: Symbol, r: seq<Symbol>)
    requires Stray(x) && CondT(Stream(None, y), true) == Result(SymbolToken([x], true), Stream(None, r))
    ensures CondT(Stream(None, [NotSign] + y), true) == Result(SymbolToken([x], true), Stream(None, r))
  {
    First(NotSign, y, true);
  }

  lemma StrayTerm(x: Symbol, r: seq<Symbol>)
    requires Stray(x)
    ensures CondT(Stream(None, [x] + r), true) == Result(SymbolToken([x], true), Stream(None, r))
  {
    First(x, r, true);
  }

  lemma Unroll(n: nat, y: seq<Symbol>)
    requires n > 0
    ensures Negations(n) + y == [NotSign] + (Negations(n - 1) + y)
  {
  }

  lemma {:induction false} StrayOperand(n: nat, x: Symbol, r: seq<Symbol>)
    requires Stray(x)
    ensures CondT(Stream(None, Negations(n) + ([x] + r)), true) == Result(SymbolToken([x], true), Stream(None, r))
  {
    hide CondT;
    if n == 0 {
      StrayTerm(x, r);
      assert Negations(0) + ([x] + r) == [x] + r;
    } else {
      StrayOperand(n - 1, x, r);
      NotStray(Negations(n - 1) + ([x] + r), x, r);
      Unroll(n, [x] + r);
    }
  }
}
