/** The conditionals of pmake as they are written: a cursor with one push-back slot, and a stack
    in an array that grows downwards (bsdmake/cond.c). */
module CondProgram {
  import opened CondParse
  import opened CondGrammar
  import opened CondNest

  class Parser {
    const text: seq<Symbol>
    var condExpr: nat
    var condPushBack: Token

    constructor (line: seq<Symbol>)
      ensures text == line && condExpr == 0 && condPushBack == None
    {
      text, condExpr, condPushBack := line, 0, None;
    }

    function Now(): Stream
      requires condExpr <= |text|
      reads this
    {
      Stream(condPushBack, text[condExpr..])
    }

    /** The slot must be empty: what is put back would overwrite it. */
    method CondPushBack(t: Token)
      requires condPushBack == None
      modifies this
      ensures condPushBack == t && condExpr == old(condExpr)
    {
      condPushBack := t;
    }

    method CondToken(doEval: bool) returns (t: Token)
      requires condExpr <= |text|
      modifies this
      ensures condExpr <= |text| && condPushBack == None
      ensures Result(t, Now()) == CondParse.CondToken(old(Now()), doEval)
    {
      if condPushBack != None {
        t, condPushBack := condPushBack, None;
        return;
      }
      if condExpr == |text| { return EndOfFile; }
      match text[condExpr] {
        case Open => t := LParen;
        case Close => t := RParen;
        case AndSign => t := And;
        case OrSign => t := Or;
        case NotSign => t := Not;
        case Atom(holds, unevaluated) => t := if (if doEval then holds else unevaluated) then True else False;
        case Bad(moves) =>
          if !moves { return Err; }
          t := Err;
      }
      condExpr := condExpr + 1;
    }

    method CondT(doEval: bool) returns (t: Token)
      requires condExpr <= |text| && condPushBack == None
      modifies this
      ensures condExpr <= |text| && condPushBack == None
      ensures Result(t, Now()) == CondParse.CondT(old(Now()), doEval)
      decreases |text| - condExpr, 0
    {
      t := CondToken(doEval);
      if t == EndOfFile {
        t := Err;
      } else if t == LParen {
        t := CondE(doEval);
        if t != Err {
          var close := CondToken(doEval);
          if close != RParen { t := Err; }
        }
      } else if t == Not {
        t := CondT(doEval);
        if t == True {
          t := False;
        } else if t == False {
          t := True;
        }
      }
    }

    method CondF(doEval: bool) returns (l: Token)
      requires condExpr <= |text| && condPushBack == None
      modifies this
      ensures condExpr <= |text|
      ensures Result(l, Now()) == CondParse.CondF(old(Now()), doEval)
      decreases |text| - condExpr, 1
    {
      l := CondT(doEval);
      if l != Err {
        var o := CondToken(doEval);
        if o == And {
          if l == True {
            l := CondF(doEval);
          } else {
            var skipped := CondF(false);
          }
        } else {
          CondPushBack(o);
        }
      }
    }

    method CondE(doEval: bool) returns (l: Token)
      requires condExpr <= |text| && condPushBack == None
      modifies this
      ensures condExpr <= |text|
      ensures Result(l, Now()) == CondParse.CondE(old(Now()), doEval)
      decreases |text| - condExpr, 2
    {
      l := CondF(doEval);
      if l != Err {
        var o := CondToken(doEval);
        if o == Or {
          if l == False {
            l := CondE(doEval);
          } else {
            var skipped := CondE(false);
          }
        } else {
          CondPushBack(o);
        }
      }
    }

    /** `Cond_EvalExpression`; `value` is what the caller's variable holds before. */
    method Evaluate(value: bool) returns (c: Condition)
      modifies this
      ensures c == EvalExpression(text, value)
    {
      condExpr, condPushBack := 0, None;
      assert text[0..] == text;
      var t := CondE(true);
      if t == True || t == False {
        var end := CondToken(true);
        c := if end == EndOfFile then Parsed(t == True) else Invalid;
      } else if t == Err {
        c := Invalid;
      } else {
        c := Parsed(value);
      }
    }
  }

  // ----- Lines.

  datatype Form = IfDef | IfNDef | IfMake | IfNMake | PlainIf

  const FORMS: seq<Form> := [IfDef, IfNDef, IfMake, IfNMake, PlainIf]

  function Name(f: Form): string {
    match f
    case IfDef => "ifdef"
    case IfNDef => "ifndef"
    case IfMake => "ifmake"
    case IfNMake => "ifnmake"
    case PlainIf => "if"
  }

  predicate Begins(s: string, name: string) {
    |name| <= |s| && s[..|name|] == name
  }

  /** The first form of the table from the `i`th on whose name `s` begins with, or the length
      of the table. */
  function FirstForm(s: string, i: nat): (j: nat)
    requires i <= |FORMS|
    ensures i <= j <= |FORMS|
    ensures j < |FORMS| ==> Begins(s, Name(FORMS[j]))
    decreases |FORMS| - i
  {
    if i == |FORMS| || Begins(s, Name(FORMS[i])) then i else FirstForm(s, i + 1)
  }

  function SkipBlanks(s: string): string {
    if s != "" && (s[0] == ' ' || s[0] == '\t') then SkipBlanks(s[1..]) else s
  }

  /** The symbols that `CondToken` finds in a condition, with the default function of a form. */
  type Scanner = (Form, string) -> seq<Symbol>

  function ConditionOf(s: string, j: nat, scan: Scanner): Condition
    requires j < |FORMS| && Begins(s, Name(FORMS[j]))
  {
    EvalExpression(scan(FORMS[j], s[|Name(FORMS[j])|..]), false)
  }

  /** What a line says, from behind its dot. */
  function Kind(line: string, scan: Scanner): Line {
    var s := SkipBlanks(line);
    if Begins(s, "el") then
      var t := s[2..];
      var j := FirstForm(t, 0);
      if j < |FORMS| then Elif(ConditionOf(t, j, scan)) else if Begins(t, "se") then Else else Other
    else if Begins(s, "endif") then Endif
    else
      var j := FirstForm(s, 0);
      if j < |FORMS| then If(ConditionOf(s, j, scan)) else Other
  }

  /** The stack grows downwards: its newest value comes first. */
  function Oldest(s: seq<bool>): (r: seq<bool>)
    ensures |r| == |s|
  {
    if s == [] then [] else Oldest(s[1..]) + [s[0]]
  }

  lemma OldestTop(s: seq<bool>)
    ensures s != [] ==> Oldest(s)[|s| - 1] == s[0] && Oldest(s)[..|s| - 1] == Oldest(s[1..])
  {
  }

  lemma OldestPush(s: seq<bool>, v: bool)
    ensures Oldest([v] + s) == Oldest(s) + [v]
  {
    assert ([v] + s)[1..] == s;
  }

  lemma SetLast(r: seq<bool>, x: bool, v: bool)
    ensures (r + [x])[|r| := v] == r + [v]
  {
  }

  lemma OldestSet(s: seq<bool>, v: bool)
    requires s != []
    ensures Oldest([v] + s[1..]) == Oldest(s)[|s| - 1 := v]
  {
    OldestPush(s[1..], v);
    SetLast(Oldest(s[1..]), s[0], v);
  }

  class Conditionals {
    const scan: Scanner
    const condStack: array<bool>
    var condTop: int
    var skipIfLevel: nat
    var skipLine: bool

    constructor (scanner: Scanner)
      ensures Valid() && scan == scanner && fresh(condStack) && State() == Machine([], 0, false)
    {
      scan := scanner;
      condStack := new bool[MAXIF];
      condTop, skipIfLevel, skipLine := MAXIF, 0, false;
    }

    predicate Valid()
      reads this
    {
      condStack.Length == MAXIF && 0 <= condTop <= MAXIF
    }

    function State(): Machine
      requires Valid()
      reads this, condStack
    {
      Machine(Oldest(condStack[condTop..]), skipIfLevel, skipLine)
    }

    /** `Cond_Eval`, for a line from behind its dot. After too many conditionals, which is a
        fatal error, the stack is not valid any more. */
    method CondEval(line: string) returns (verdict: Verdict)
      requires Valid()
      modifies this, condStack
      ensures Answers(CondNest.CondEval(old(State()), Kind(line, scan)), verdict)
    {
      var s := PastBlanks(line);
      var isElse := Begins(s, "el");
      var value := false;
      OldestTop(condStack[condTop..]);
      if isElse {
        s := s[2..];
      } else if Begins(s, "endif") {
        verdict := CondEndif();
        return;
      }
      var i := FindForm(s);
      if i == |FORMS| {
        if isElse && Begins(s, "se") {
          if condTop == MAXIF { return Nothing; }
          if skipIfLevel != 0 { return Skip; }
          value := !condStack[condTop];
        } else {
          return Nothing;
        }
      } else {
        if isElse {
          if condTop == MAXIF { return Nothing; }
          if skipIfLevel != 0 { return Skip; }
        } else if skipLine {
          skipIfLevel := skipIfLevel + 1;
          return Skip;
        }
        var parser := new Parser(scan(FORMS[i], s[|Name(FORMS[i])|..]));
        var c := parser.Evaluate(value);
        if c.Invalid? { return Nothing; }
        value := c.value;
      }
      verdict := Take(isElse, value);
    }

    ghost predicate Answers(a: Answer, verdict: Verdict)
      reads this, condStack
    {
      match a
      case TooMany => verdict == Nothing && condTop == -1
      case Answer(m, v) => Valid() && State() == m && verdict == v
    }

    method CondEndif() returns (verdict: Verdict)
      requires Valid()
      modifies this
      ensures Answers(CondNest.CondEval(old(State()), Endif), verdict)
    {
      if skipIfLevel != 0 {
        skipIfLevel := skipIfLevel - 1;
        return Skip;
      }
      if condTop == MAXIF { return Nothing; }
      OldestTop(condStack[condTop..]);
      skipLine := false;
      condTop := condTop + 1;
      verdict := Parse;
    }

    /** The end of `Cond_Eval`: a new conditional, or another branch, with its value. */
    method Take(isElse: bool, value: bool) returns (verdict: Verdict)
      requires Valid() && if isElse then condTop < MAXIF && skipIfLevel == 0 else !skipLine
      modifies this, condStack
      ensures var line := if isElse then Elif(Parsed(value)) else If(Parsed(value));
              Answers(CondNest.CondEval(old(State()), line), verdict)
    {
      ghost var was := condStack[condTop..];
      OldestTop(was);
      if !isElse {
        condTop := condTop - 1;
      } else if skipIfLevel != 0 || condStack[condTop] {
        skipLine := true;
        return Skip;
      }
      if condTop < 0 { return Nothing; }
      condStack[condTop] := value;
      skipLine := !value;
      verdict := if value then Parse else Skip;
      if isElse { OldestSet(was, value); } else { OldestPush(was, value); }
      assert condStack[condTop..] == [value] + (if isElse then was[1..] else was);
    }
  }

  method PastBlanks(line: string) returns (s: string)
    ensures s == SkipBlanks(line)
  {
    s := line;
    while s != "" && (s[0] == ' ' || s[0] == '\t')
      invariant SkipBlanks(s) == SkipBlanks(line)
      decreases s
    {
      s := s[1..];
    }
  }

  method FindForm(s: string) returns (i: nat)
    ensures i == FirstForm(s, 0)
  {
    i := 0;
    while i < |FORMS| && !Begins(s, Name(FORMS[i]))
      invariant i <= |FORMS| && FirstForm(s, 0) == FirstForm(s, i)
    {
      i := i + 1;
    }
  }
}
