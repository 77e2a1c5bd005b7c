/** Nested conditionals (`Cond_Eval`, bsdmake/cond.c): the compressed state the program keeps,
    the full stack it stands for, and what is kept of a document. */
module CondNest {
  import opened CondGrammar

  /** A line, its condition worked out: `Other` is not a conditional. */
  datatype Line = If(c: Condition) | Elif(c: Condition) | Else | Endif | Other

  /** What `Cond_Eval` tells the reader: to read lines, to skip them, or nothing. */
  datatype Verdict = Parse | Skip | Nothing

  const MAXIF := 30

  // ----- The full stack.

  /** One `.if`: whether the lines around it are read, whether one of its branches has been
      chosen, and whether the lines of the present branch are read. */
  datatype Frame = Frame(enclosing: bool, taken: bool, active: bool)

  predicate Active(stack: seq<Frame>) {
    stack == [] || stack[|stack| - 1].active
  }

  datatype Outcome = Outcome(stack: seq<Frame>, verdict: Verdict)

  /** Another branch of the innermost conditional. */
  function Branch(stack: seq<Frame>, c: Condition): Outcome {
    if stack == [] then Outcome(stack, Nothing)
    else
      var rest, top := stack[..|stack| - 1], stack[|stack| - 1];
      if !top.enclosing then Outcome(stack, Skip)
      else if c.Invalid? then Outcome(stack, Nothing)
      else if top.taken then Outcome(rest + [Frame(true, true, false)], Skip)
      else Outcome(rest + [Frame(true, c.value, c.value)], if c.value then Parse else Skip)
  }

  function Eval(stack: seq<Frame>, line: Line): Outcome {
    match line
    case If(c) =>
      if !Active(stack) then Outcome(stack + [Frame(false, false, false)], Skip)
      else if c.Invalid? then Outcome(stack, Nothing)
      else Outcome(stack + [Frame(true, c.value, c.value)], if c.value then Parse else Skip)
    case Elif(c) => Branch(stack, c)
    case Else => Branch(stack, Parsed(true))
    case Endif =>
      if stack == [] then Outcome(stack, Nothing)
      else Outcome(stack[..|stack| - 1], if stack[|stack| - 1].enclosing then Parse else Skip)
    case Other => Outcome(stack, Nothing)
  }

  // ----- What the program keeps.

  /** `values` is the used part of `condStack`, the oldest first. */
  datatype Machine = Machine(values: seq<bool>, skipIfLevel: nat, skipLine: bool)

  datatype Answer = Answer(m: Machine, verdict: Verdict) | TooMany

  function Top(m: Machine): bool
    requires m.values != []
  {
    m.values[|m.values| - 1]
  }

  function SetTop(m: Machine, value: bool): Answer
    requires m.values != []
  {
    Answer(Machine(m.values[|m.values| - 1 := value], m.skipIfLevel, !value), if value then Parse else Skip)
  }

  /** `Cond_Eval`. */
  function CondEval(m: Machine, line: Line): Answer {
    match line
    case Endif =>
      if m.skipIfLevel != 0 then Answer(m.(skipIfLevel := m.skipIfLevel - 1), Skip)
      else if m.values == [] then Answer(m, Nothing)
      else Answer(Machine(m.values[..|m.values| - 1], 0, false), Parse)
    case Other => Answer(m, Nothing)
    case Else =>
      if m.values == [] then Answer(m, Nothing)
      else if m.skipIfLevel != 0 then Answer(m, Skip)
      else if Top(m) then Answer(m.(skipLine := true), Skip)
      else SetTop(m, !Top(m))
    case Elif(c) =>
      if m.values == [] then Answer(m, Nothing)
      else if m.skipIfLevel != 0 then Answer(m, Skip)
      else if c.Invalid? then Answer(m, Nothing)
      else if Top(m) then Answer(m.(skipLine := true), Skip)
      else SetTop(m, c.value)
    case If(c) =>
      if m.skipLine then Answer(m.(skipIfLevel := m.skipIfLevel + 1), Skip)
      else if c.Invalid? then Answer(m, Nothing)
      else if |m.values| == MAXIF then TooMany
      else Answer(Machine(m.values + [c.value], m.skipIfLevel, !c.value), if c.value then Parse else Skip)
  }

  /** The state stands for this stack. */
  predicate Stands(m: Machine, stack: seq<Frame>) {
    var n := |m.values|;
    && n <= MAXIF && |stack| == n + m.skipIfLevel
    && (forall i :: 0 <= i < n ==> stack[i].enclosing && stack[i].taken == m.values[i])
    && (forall i :: 0 <= i < n - 1 ==> stack[i].active && stack[i].taken)
    && (if n == 0 then !m.skipLine else stack[n - 1].active == !m.skipLine && (!m.skipLine ==> stack[n - 1].taken))
    && (forall i :: n <= i < |stack| ==> stack[i] == Frame(false, false, false))
    && (m.skipIfLevel > 0 ==> m.skipLine)
  }

  /** The two agree on a line. */
  predicate Agree(m: Machine, stack: seq<Frame>, line: Line) {
    var a, o := CondEval(m, line), Eval(stack, line);
    && (a.TooMany? <==> line.If? && line.c.Parsed? && Active(stack) && |stack| == MAXIF)
    && (a.Answer? ==> a.verdict == o.verdict && Stands(a.m, o.stack))
  }

  lemma IfAgrees(m: Machine, stack: seq<Frame>, c: Condition)
    requires Stands(m, stack)
    ensures Agree(m, stack, If(c))
  {
  }

  /** The innermost conditional takes its next branch, or goes on skipping. */
  lemma TopStands(m: Machine, stack: seq<Frame>, value: bool)
    requires Stands(m, stack) && m.values != [] && m.skipIfLevel == 0
    ensures var rest := stack[..|stack| - 1];
            && (!Top(m) ==> Stands(SetTop(m, value).m, rest + [Frame(true, value, value)]))
            && (Top(m) ==> Stands(m.(skipLine := true), rest + [Frame(true, true, false)]))
  {
  }

  lemma BranchTop(m: Machine, stack: seq<Frame>)
    requires Stands(m, stack) && m.values != []
    ensures stack != [] && var top := stack[|stack| - 1];
            (m.skipIfLevel == 0 ==> top.enclosing && top.taken == Top(m)) && (m.skipIfLevel > 0 ==> !top.enclosing)
  {
  }

  lemma ElifAgrees(m: Machine, stack: seq<Frame>, c: Condition)
    requires Stands(m, stack)
    ensures Agree(m, stack, Elif(c))
  {
    if m.values != [] {
      BranchTop(m, stack);
      if m.skipIfLevel == 0 && c.Parsed? { TopStands(m, stack, c.value); }
    }
  }

  lemma ElseAgrees(m: Machine, stack: seq<Frame>)
    requires Stands(m, stack)
    ensures Agree(m, stack, Else)
  {
    if m.values != [] {
      BranchTop(m, stack);
      if m.skipIfLevel == 0 { TopStands(m, stack, true); }
    }
  }

  lemma EndifAgrees(m: Machine, stack: seq<Frame>)
    requires Stands(m, stack)
    ensures Agree(m, stack, Endif)
  {
  }

  /** MAIN: the program's state goes on standing for the full stack, and its verdicts are those
      of the full stack, for all sequences of lines, well nested or not. It gives up exactly at
      a 31st conditional inside 30 others that are all being read. */
  lemma StepStands(m: Machine, stack: seq<Frame>, line: Line)
    requires Stands(m, stack)
    ensures Agree(m, stack, line)
  {
    match line
    case If(c) => IfAgrees(m, stack, c);
    case Elif(c) => ElifAgrees(m, stack, c);
    case Else => ElseAgrees(m, stack);
    case Endif => EndifAgrees(m, stack);
    case Other =>
  }

  /** The verdict says whether the lines that follow are read; without one nothing changes. */
  lemma VerdictIsActive(m: Machine, stack: seq<Frame>, line: Line)
    requires Stands(m, stack)
    ensures var o := Eval(stack, line);
            Active(o.stack) == if o.verdict == Nothing then Active(stack) else o.verdict == Parse
  {
  }
}
