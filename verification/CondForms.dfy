/** What the parser of conditions makes of any sequence of symbols, well formed or not. */
module CondForms {
  import opened CondParse
  import opened CondGrammar

  /** The forms in which a sequence of symbols is read. Where an operand should be there can be a
      stray symbol, an atom in error, or the end of the text (`Missing`); a parenthesis can hold
      an error (`OpenFault`), or be followed by something else than its closing one (`next`, which
      is read past unless it is the end of the text or an error that stays). */
  datatype Form =
    | Operand(holds: bool, unevaluated: bool)
    | StrayOperand(x: Symbol)
    | Fault(x: Symbol)
    | Missing
    | Inverse(arg: Form)
    | Parentheses(inner: Form)
    | OpenFault(inner: Form)
    | Unclosed(inner: Form, next: seq<Symbol>)
    | Conjunction(l: Form, r: Form)
    | Disjunction(l: Form, r: Form)

  function Text(x: Form): seq<Symbol> {
    match x
    case Operand(holds, unevaluated) => [Atom(holds, unevaluated)]
    case StrayOperand(y) => [y]
    case Fault(y) => if y.Bad? && !y.moves then [] else [y]
    case Missing => []
    case Inverse(a) => [NotSign] + Text(a)
    case Parentheses(i) => [Open] + (Text(i) + [Close])
    case OpenFault(i) => [Open] + Text(i)
    case Unclosed(i, next) => [Open] + (Text(i) + next)
    case Conjunction(l, r) => Text(l) + ([AndSign] + Text(r))
    case Disjunction(l, r) => Text(l) + ([OrSign] + Text(r))
  }

  /** True, false, a stray token, or an error. An operand that decides is the result, whatever is
      in the one that is skipped. */
  function Outcome(x: Form, doEval: bool): Token {
    match x
    case Operand(holds, unevaluated) => Truth(if doEval then holds else unevaluated)
    case StrayOperand(y) => SymbolToken([y], doEval)
    case Fault(_) => Err
    case Missing => Err
    case Inverse(a) =>
      var v := Outcome(a, doEval);
      if v == True then False else if v == False then True else v
    case Parentheses(i) => Outcome(i, doEval)
    case OpenFault(_) => Err
    case Unclosed(_, _) => Err
    case Conjunction(l, r) =>
      var v := Outcome(l, doEval);
      if v == True then Outcome(r, doEval) else v
    case Disjunction(l, r) =>
      var v := Outcome(l, doEval);
      if v == False then Outcome(r, doEval) else v
  }

  /** A term in front of `r`. */
  predicate TermFits(x: Form, r: seq<Symbol>, doEval: bool)
    decreases x, 0
  {
    match x
    case Operand(_, _) => true
    case StrayOperand(y) => Stray(y)
    case Fault(y) => y.Bad? && (!y.moves ==> r != [] && r[0] == y)
    case Missing => r == []
    case Inverse(a) => TermFits(a, r, doEval)
    case Parentheses(i) => Outcome(i, doEval) != Err && Fits(i, [Close] + r, doEval)
    case OpenFault(i) => Outcome(i, doEval) == Err && Fits(i, r, doEval)
    case Unclosed(i, next) =>
      && Outcome(i, doEval) != Err && Fits(i, next + r, doEval) && !Operator(next + r, Close)
      && |next| <= 1 && Behind(next + r) == r
    case Conjunction(_, _) => false
    case Disjunction(_, _) => false
  }

  /** A factor: the right operand is skipped unless the left one is true. */
  predicate FactorFits(x: Form, r: seq<Symbol>, doEval: bool)
    decreases x, 1
  {
    if x.Conjunction? then
      && TermFits(x.l, [AndSign] + (Text(x.r) + r), doEval) && Outcome(x.l, doEval) != Err
      && FactorFits(x.r, r, doEval && Outcome(x.l, doEval) == True)
    else TermFits(x, r, doEval) && (Outcome(x, doEval) == Err || !Operator(r, AndSign))
  }

  /** A condition: the right operand is skipped unless the left one is false. */
  predicate Fits(x: Form, r: seq<Symbol>, doEval: bool)
    decreases x, 2
  {
    if x.Disjunction? then
      && FactorFits(x.l, [OrSign] + (Text(x.r) + r), doEval) && Outcome(x.l, doEval) != Err
      && Fits(x.r, r, doEval && Outcome(x.l, doEval) == False)
    else FactorFits(x, r, doEval) && (Outcome(x, doEval) == Err || !Operator(r, OrSign))
  }

  // ----- One production at a time.

  /** The stream is at `r`, its first symbol read and put back, or not read yet. */
  predicate At(st: Stream, r: seq<Symbol>) {
    st == Stream(None, r) || AtFirst(st, r)
  }

  /** What the parser has returned for a form. */
  predicate Returns(result: Result, t: Token, r: seq<Symbol>) {
    result.t == t && At(result.left, r) && (t == Err ==> result.left == Stream(None, r))
  }

  lemma Take(st: Stream, r: seq<Symbol>, doEval: bool)
    requires At(st, r)
    ensures var next := CondToken(st, doEval);
            && next.left == Stream(None, Behind(r))
            && (next.t == EndOfFile <==> r == []) && (next.t == And <==> Operator(r, AndSign))
            && (next.t == Or <==> Operator(r, OrSign)) && (next.t == RParen <==> Operator(r, Close))
            && AtFirst(PushedBack(next), r)
  {
  }

  lemma Tail(x: Symbol, r: seq<Symbol>)
    ensures ([x] + r)[1..] == r
  {
  }

  lemma NotForm(y: seq<Symbol>, doEval: bool)
    ensures var a := CondT(Stream(None, y), doEval);
            CondT(Stream(None, [NotSign] + y), doEval)
            == Result(if a.t == True then False else if a.t == False then True else a.t, a.left)
  {
    First(NotSign, y, doEval);
  }

  lemma GroupForm(y: seq<Symbol>, r: seq<Symbol>, doEval: bool)
    requires var inner := CondE(Stream(None, y), doEval); Returns(inner, inner.t, r)
    ensures var inner := CondE(Stream(None, y), doEval);
            CondT(Stream(None, [Open] + y), doEval)
            == if inner.t == Err then Result(Err, Stream(None, r))
               else Result(if Operator(r, Close) then inner.t else Err, Stream(None, Behind(r)))
  {
    First(Open, y, doEval);
    Take(CondE(Stream(None, y), doEval).left, r, doEval);
  }

  lemma FactorForm(y: seq<Symbol>, t: Token, r: seq<Symbol>, doEval: bool)
    requires CondT(Stream(None, y), doEval) == Result(t, Stream(None, r)) && (t == Err || !Operator(r, AndSign))
    ensures Returns(CondF(Stream(None, y), doEval), t, r)
  {
    Take(Stream(None, r), r, doEval);
  }

  lemma AndForm(y: seq<Symbol>, t: Token, x: seq<Symbol>, doEval: bool)
    requires CondT(Stream(None, y), doEval) == Result(t, Stream(None, [AndSign] + x)) && t != Err
    ensures var right := CondF(Stream(None, x), doEval && t == True);
            CondF(Stream(None, y), doEval) == if t == True then right else Result(t, right.left)
  {
    First(AndSign, x, doEval);
  }

  lemma TermForm(y: seq<Symbol>, t: Token, r: seq<Symbol>, doEval: bool)
    requires Returns(CondF(Stream(None, y), doEval), t, r) && (t == Err || !Operator(r, OrSign))
    ensures Returns(CondE(Stream(None, y), doEval), t, r)
  {
    Take(CondF(Stream(None, y), doEval).left, r, doEval);
  }

  lemma OrForm(y: seq<Symbol>, t: Token, x: seq<Symbol>, doEval: bool)
    requires Returns(CondF(Stream(None, y), doEval), t, [OrSign] + x) && t != Err
    ensures var right := CondE(Stream(None, x), doEval && t == False);
            CondE(Stream(None, y), doEval) == if t == False then right else Result(t, right.left)
  {
    Take(CondF(Stream(None, y), doEval).left, [OrSign] + x, doEval);
    Tail(OrSign, x);
  }

  // ----- Every form is read as such.

  lemma {:induction false} ReadsTerm(x: Form, r: seq<Symbol>, doEval: bool)
    requires TermFits(x, r, doEval)
    ensures CondT(Stream(None, Text(x) + r), doEval) == Result(Outcome(x, doEval), Stream(None, r))
    decreases x, 0
  {
    hide CondT, CondE;
    match x
    case Operand(_, _) => ReadsSymbol(Text(x)[0], r, doEval);
    case StrayOperand(y) => ReadsSymbol(y, r, doEval);
    case Fault(y) => ReadsFault(y, r, doEval);
    case Missing =>
      assert [] + r == [];
      ReadsEnd(doEval);
    case Inverse(a) =>
      Assoc([NotSign], Text(a), r);
      ReadsTerm(a, r, doEval);
      NotForm(Text(a) + r, doEval);
    case Parentheses(i) =>
      Assoc([Open], Text(i) + [Close], r);
      Assoc(Text(i), [Close], r);
      ReadsForm(i, [Close] + r, doEval);
      GroupForm(Text(i) + ([Close] + r), [Close] + r, doEval);
      Tail(Close, r);
    case OpenFault(i) =>
      Assoc([Open], Text(i), r);
      ReadsForm(i, r, doEval);
      GroupForm(Text(i) + r, r, doEval);
    case Unclosed(i, next) =>
      Assoc([Open], Text(i) + next, r);
      Assoc(Text(i), next, r);
      ReadsForm(i, next + r, doEval);
      GroupForm(Text(i) + (next + r), next + r, doEval);
  }

  lemma ReadsSymbol(y: Symbol, r: seq<Symbol>, doEval: bool)
    requires y.Atom? || Stray(y)
    ensures CondT(Stream(None, [y] + r), doEval) == Result(SymbolToken([y], doEval), Stream(None, r))
  {
    First(y, r, doEval);
  }

  lemma ReadsFault(y: Symbol, r: seq<Symbol>, doEval: bool)
    requires TermFits(Fault(y), r, doEval)
    ensures CondT(Stream(None, Text(Fault(y)) + r), doEval) == Result(Err, Stream(None, r))
  {
    Tail(y, r);
    assert !y.moves ==> [] + r == r;
  }

  lemma ReadsEnd(doEval: bool)
    ensures CondT(Stream(None, []), doEval) == Result(Err, Stream(None, []))
  {
  }

  lemma {:induction false} ReadsFactor(x: Form, r: seq<Symbol>, doEval: bool)
    requires FactorFits(x, r, doEval)
    ensures Returns(CondF(Stream(None, Text(x) + r), doEval), Outcome(x, doEval), r)
    decreases x, 1
  {
    hide CondT, CondF;
    if x.Conjunction? {
      var y := Text(x.r) + r;
      Assoc(Text(x.l), [AndSign] + Text(x.r), r);
      Assoc([AndSign], Text(x.r), r);
      ReadsTerm(x.l, [AndSign] + y, doEval);
      AndForm(Text(x) + r, Outcome(x.l, doEval), y, doEval);
      ReadsFactor(x.r, r, doEval && Outcome(x.l, doEval) == True);
    } else {
      ReadsTerm(x, r, doEval);
      FactorForm(Text(x) + r, Outcome(x, doEval), r, doEval);
    }
  }

  /** MAIN: every form is read as what it is, with its outcome, and up to its end. */
  lemma {:induction false} ReadsForm(x: Form, r: seq<Symbol>, doEval: bool)
    requires Fits(x, r, doEval)
    ensures Returns(CondE(Stream(None, Text(x) + r), doEval), Outcome(x, doEval), r)
    decreases x, 2
  {
    hide CondF, CondE;
    if x.Disjunction? {
      var y := Text(x.r) + r;
      Assoc(Text(x.l), [OrSign] + Text(x.r), r);
      Assoc([OrSign], Text(x.r), r);
      ReadsFactor(x.l, [OrSign] + y, doEval);
      OrForm(Text(x) + r, Outcome(x.l, doEval), y, doEval);
      ReadsForm(x.r, r, doEval && Outcome(x.l, doEval) == False);
    } else {
      ReadsFactor(x, r, doEval);
      TermForm(Text(x) + r, Outcome(x, doEval), r, doEval);
    }
  }

  // ----- Every sequence of symbols begins with a form.

  lemma Split(s: seq<Symbol>)
    requires s != []
    ensures s == [s[0]] + s[1..]
  {
  }

  lemma {:induction false} FindTerm(s: seq<Symbol>, doEval: bool) returns (x: Form, r: seq<Symbol>)
    ensures TermFits(x, r, doEval) && s == Text(x) + r
    ensures Outcome(x, doEval) != Err ==> |r| < |s|
    decreases |s|, 0
  {
    if s == [] {
      x, r := Missing, [];
    } else {
      Split(s);
      match s[0] {
        case Atom(holds, unevaluated) => x, r := Operand(holds, unevaluated), s[1..];
        case Bad(moves) =>
          x, r := Fault(s[0]), if moves then s[1..] else s;
          assert !moves ==> [] + r == s;
        case NotSign =>
          var a;
          a, r := FindTerm(s[1..], doEval);
          x := Inverse(a);
          Assoc([NotSign], Text(a), r);
        case Open => x, r := FindParentheses(s, doEval);
        case _ => x, r := StrayOperand(s[0]), s[1..];
      }
    }
  }

  lemma {:induction false} FindParentheses(s: seq<Symbol>, doEval: bool) returns (x: Form, r: seq<Symbol>)
    requires s != [] && s[0] == Open
    ensures TermFits(x, r, doEval) && s == Text(x) + r
    ensures Outcome(x, doEval) != Err ==> |r| < |s|
    decreases |s| - 1, 5
  {
    Split(s);
    var i, rest := FindForm(s[1..], doEval);
    if Outcome(i, doEval) == Err {
      x, r := OpenFault(i), rest;
      Assoc([Open], Text(i), r);
    } else {
      r := Behind(rest);
      var next := Front(rest);
      Assoc([Open], Text(i) + next, r);
      Assoc(Text(i), next, r);
      if Operator(rest, Close) {
        x := Parentheses(i);
      } else {
        x := Unclosed(i, next);
      }
    }
  }

  /** What `CondToken` reads past. */
  lemma Front(s: seq<Symbol>) returns (next: seq<Symbol>)
    ensures |next| <= 1 && next + Behind(s) == s && (Operator(s, Close) ==> next == [Close])
  {
    if s != [] && Behind(s) != s {
      next := [s[0]];
      Split(s);
    } else {
      next := [];
      assert [] + s == s;
    }
  }

  lemma {:induction false} FindFactor(s: seq<Symbol>, doEval: bool) returns (x: Form, r: seq<Symbol>)
    ensures FactorFits(x, r, doEval) && s == Text(x) + r
    ensures Outcome(x, doEval) != Err ==> |r| < |s|
    decreases |s|, 1
  {
    var l, rest := FindTerm(s, doEval);
    var v := Outcome(l, doEval);
    if v != Err && Operator(rest, AndSign) {
      Split(rest);
      var y;
      y, r := FindFactor(rest[1..], doEval && v == True);
      x := Conjunction(l, y);
      Assoc(Text(l), [AndSign] + Text(y), r);
      Assoc([AndSign], Text(y), r);
    } else {
      x, r := l, rest;
      TermIsFactor(x, r, doEval);
    }
  }

  lemma TermIsFactor(x: Form, r: seq<Symbol>, doEval: bool)
    requires TermFits(x, r, doEval) && (Outcome(x, doEval) == Err || !Operator(r, AndSign))
    ensures FactorFits(x, r, doEval) && !x.Disjunction?
  {
  }

  lemma {:induction false} FindForm(s: seq<Symbol>, doEval: bool) returns (x: Form, r: seq<Symbol>)
    ensures Fits(x, r, doEval) && s == Text(x) + r
    ensures Outcome(x, doEval) != Err ==> |r| < |s|
    decreases |s|, 2
  {
    var l, rest := FindFactor(s, doEval);
    var v := Outcome(l, doEval);
    if v != Err && Operator(rest, OrSign) {
      Split(rest);
      var y;
      y, r := FindForm(rest[1..], doEval && v == False);
      x := Disjunction(l, y);
      Assoc(Text(l), [OrSign] + Text(y), r);
      Assoc([OrSign], Text(y), r);
    } else {
      x, r := l, rest;
    }
  }

  // ----- What is accepted.

  /** A condition is accepted as `b` if it is a form that is true or false and nothing is behind it,
      or if a form with a stray result stands at its beginning: then whatever is behind it, the
      value is the one that the caller has begun with. */
  ghost predicate Accepted(s: seq<Symbol>, value: bool, b: bool) {
    || (exists x :: s == Text(x) && Fits(x, [], true) && Outcome(x, true) == Truth(b))
    || (b == value && exists x, r :: Begins(s, x, r) && Outcome(x, true) in {And, Or, RParen})
  }

  predicate Begins(s: seq<Symbol>, x: Form, r: seq<Symbol>) {
    s == Text(x) + r && Fits(x, r, true)
  }

  /** MAIN: `Cond_EvalExpression` accepts exactly these conditions, with these values. */
  lemma AcceptedIff(s: seq<Symbol>, value: bool, b: bool)
    ensures EvalExpression(s, value) == Parsed(b) <==> Accepted(s, value, b)
  {
    var x, r := FindForm(s, true);
    FormDecides(s, x, r, value);
    assert Begins(s, x, r);
    if r == [] { assert Text(x) + [] == Text(x); }
    if x' :| s == Text(x') && Fits(x', [], true) && Outcome(x', true) == Truth(b) {
      assert Text(x') + [] == Text(x');
      FormDecides(s, x', [], value);
    }
    if x', r' :| Begins(s, x', r') && Outcome(x', true) in {And, Or, RParen} { FormDecides(s, x', r', value); }
  }

  lemma FormDecides(s: seq<Symbol>, x: Form, r: seq<Symbol>, value: bool)
    requires Begins(s, x, r)
    ensures var t := Outcome(x, true);
            EvalExpression(s, value) == if t == True || t == False then (if r == [] then Parsed(t == True) else Invalid)
                                        else if t == Err then Invalid else Parsed(value)
    ensures Outcome(x, true) in {True, False, Err, And, Or, RParen}
  {
    ReadsForm(x, r, true);
    Take(CondE(Stream(None, s), true).left, r, true);
    Outcomes(x, r, true);
  }

  lemma {:induction false} Outcomes(x: Form, r: seq<Symbol>, doEval: bool)
    requires TermFits(x, r, doEval) || FactorFits(x, r, doEval) || Fits(x, r, doEval)
    ensures Outcome(x, doEval) in {True, False, Err, And, Or, RParen}
    decreases x
  {
    assert !x.Disjunction? && Fits(x, r, doEval) ==> FactorFits(x, r, doEval);
    assert !x.Conjunction? && FactorFits(x, r, doEval) ==> TermFits(x, r, doEval);
    match x
    case Inverse(a) => Outcomes(a, r, doEval);
    case Parentheses(i) => Outcomes(i, [Close] + r, doEval);
    case Conjunction(l, y) =>
      Outcomes(l, [AndSign] + (Text(y) + r), doEval);
      Outcomes(y, r, doEval && Outcome(l, doEval) == True);
    case Disjunction(l, y) =>
      Outcomes(l, [OrSign] + (Text(y) + r), doEval);
      Outcomes(y, r, doEval && Outcome(l, doEval) == False);
    case _ =>
  }

  // ----- The forms without anything irregular are the conditions of the grammar.

  predicate Regular(x: Form) {
    match x
    case Operand(_, _) => true
    case Inverse(a) => Regular(a)
    case Parentheses(i) => Regular(i)
    case Conjunction(l, r) => Regular(l) && Regular(r)
    case Disjunction(l, r) => Regular(l) && Regular(r)
    case _ => false
  }

  function Tree(x: Form): Expr
    requires Regular(x)
  {
    match x
    case Operand(holds, unevaluated) => Leaf(holds, unevaluated)
    case Inverse(a) => Negation(Tree(a))
    case Parentheses(i) => Group(Tree(i))
    case Conjunction(l, r) => Both(Tree(l), Tree(r))
    case Disjunction(l, r) => Either(Tree(l), Tree(r))
  }

  lemma {:induction false} TreeSame(x: Form, doEval: bool)
    requires Regular(x)
    ensures Print(Tree(x)) == Text(x) && Outcome(x, doEval) == Truth(Meaning(Tree(x), doEval))
  {
    match x
    case Operand(_, _) =>
    case Inverse(a) => TreeSame(a, doEval);
    case Parentheses(i) => TreeSame(i, doEval);
    case Conjunction(l, r) =>
      TreeSame(l, doEval);
      TreeSame(r, doEval);
    case Disjunction(l, r) =>
      TreeSame(l, doEval);
      TreeSame(r, doEval);
  }

  /** MAIN: a regular form is a condition of the grammar, with its truth value. */
  lemma {:induction false} RegularIsGrammar(x: Form, r: seq<Symbol>, doEval: bool)
    requires Regular(x) && (TermFits(x, r, doEval) || FactorFits(x, r, doEval) || Fits(x, r, doEval))
    ensures Grammar(Tree(x)) && Print(Tree(x)) == Text(x) && Outcome(x, doEval) == Truth(Meaning(Tree(x), doEval))
    ensures Rank(Tree(x)) == if TermFits(x, r, doEval) then 2 else if FactorFits(x, r, doEval) then 1 else 0
    decreases x
  {
    TreeSame(x, doEval);
    match x
    case Operand(_, _) =>
    case Inverse(a) => RegularIsGrammar(a, r, doEval);
    case Parentheses(i) => RegularIsGrammar(i, [Close] + r, doEval);
    case Conjunction(l, y) =>
      RegularIsGrammar(l, [AndSign] + (Text(y) + r), doEval);
      RegularIsGrammar(y, r, doEval && Outcome(l, doEval) == True);
    case Disjunction(l, y) =>
      RegularIsGrammar(l, [OrSign] + (Text(y) + r), doEval);
      RegularIsGrammar(y, r, doEval && Outcome(l, doEval) == False);
  }
}
