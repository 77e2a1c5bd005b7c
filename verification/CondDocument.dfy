/** What the reader (bsdmake/parse.c) keeps of a makefile with nested conditionals. */
module CondDocument {
  import opened CondGrammar
  import opened CondNest

  /** A makefile: lines of text (numbered) and chains of branches. */
  datatype Doc = End | Text(id: int, rest: Doc) | Chain(c: Condition, body: Doc, arms: Arms, rest: Doc)

  datatype Arms = NoArm | ElifArm(c: Condition, body: Doc, arms: Arms) | ElseArm(body: Doc)

  datatype Item = Plain(id: int) | Dot(line: Line)

  /** The lines of a makefile, and `tail` behind them. */
  function Lines(doc: Doc, tail: seq<Item>): seq<Item> {
    match doc
    case End => tail
    case Text(id, rest) => [Plain(id)] + Lines(rest, tail)
    case Chain(c, body, arms, rest) => [Dot(If(c))] + Lines(body, ArmLines(arms, [Dot(Endif)] + Lines(rest, tail)))
  }

  function ArmLines(arms: Arms, tail: seq<Item>): seq<Item> {
    match arms
    case NoArm => tail
    case ElifArm(c, body, more) => [Dot(Elif(c))] + Lines(body, ArmLines(more, tail))
    case ElseArm(body) => [Dot(Else)] + Lines(body, tail)
  }

  /** The lines that are meant to be kept: of each chain the first branch whose condition is
      true, or else the last branch. */
  function Kept(doc: Doc): seq<int> {
    match doc
    case End => []
    case Text(id, rest) => [id] + Kept(rest)
    case Chain(c, body, arms, rest) => (if c == Parsed(true) then Kept(body) else KeptArm(arms)) + Kept(rest)
  }

  function KeptArm(arms: Arms): seq<int> {
    match arms
    case NoArm => []
    case ElifArm(c, body, more) => if c == Parsed(true) then Kept(body) else KeptArm(more)
    case ElseArm(body) => Kept(body)
  }

  /** Every condition that is worked out is well formed, and at most `depth` chains that are
      being read stand inside each other. Skipped branches may hold anything. */
  predicate Readable(doc: Doc, depth: nat) {
    match doc
    case End => true
    case Text(_, rest) => Readable(rest, depth)
    case Chain(c, body, arms, rest) =>
      && depth > 0 && c.Parsed? && Readable(rest, depth)
      && if c.value then Readable(body, depth - 1) && AllParsed(arms) else ReadableArms(arms, depth - 1)
  }

  predicate ReadableArms(arms: Arms, depth: nat) {
    match arms
    case NoArm => true
    case ElifArm(c, body, more) =>
      c.Parsed? && if c.value then Readable(body, depth) && AllParsed(more) else ReadableArms(more, depth)
    case ElseArm(body) => Readable(body, depth)
  }

  /** The conditions of the branches behind the chosen one are worked out all the same. */
  predicate AllParsed(arms: Arms) {
    match arms
    case NoArm => true
    case ElifArm(c, _, more) => c.Parsed? && AllParsed(more)
    case ElseArm(_) => true
  }

  /** The text that has been kept, or `GivenUp`: too many conditionals. */
  datatype Page = Page(text: seq<int>, m: Machine) | GivenUp

  function Under(head: seq<int>, p: Page): Page {
    match p case GivenUp => GivenUp case Page(text, m) => Page(head + text, m)
  }

  /** The loop of the reader; while it skips, only lines with a dot are looked at. */
  function Read(m: Machine, keep: bool, items: seq<Item>): Page
    decreases items
  {
    if items == [] then Page([], m)
    else
      match items[0]
      case Plain(id) => if keep then Under([id], Read(m, keep, items[1..])) else Read(m, keep, items[1..])
      case Dot(line) =>
        match CondEval(m, line)
        case TooMany => GivenUp
        case Answer(m', verdict) => Read(m', if verdict == Nothing then keep else verdict == Parse, items[1..])
  }

  lemma ReadDot(m: Machine, keep: bool, line: Line, tail: seq<Item>)
    ensures Read(m, keep, [Dot(line)] + tail)
            == match CondEval(m, line)
               case TooMany => GivenUp
               case Answer(m', verdict) => Read(m', if verdict == Nothing then keep else verdict == Parse, tail)
  {
    assert ([Dot(line)] + tail)[1..] == tail;
  }

  lemma ReadPlain(m: Machine, keep: bool, id: int, tail: seq<Item>)
    ensures Read(m, keep, [Plain(id)] + tail) == if keep then Under([id], Read(m, keep, tail)) else Read(m, keep, tail)
  {
    assert ([Plain(id)] + tail)[1..] == tail;
  }

  // ----- All sequences of lines, well nested or not.

  datatype Text = Of(ids: seq<int>) | Over

  /** A line of text is kept while the innermost conditional of the full stack is active. */
  function KeptBy(stack: seq<Frame>, items: seq<Item>): Text
    decreases items
  {
    if items == [] then Of([])
    else
      match items[0]
      case Plain(id) =>
        (match KeptBy(stack, items[1..])
         case Over => Over
         case Of(ids) => Of(if Active(stack) then [id] + ids else ids))
      case Dot(line) =>
        if line.If? && line.c.Parsed? && Active(stack) && |stack| == MAXIF then Over
        else KeptBy(Eval(stack, line).stack, items[1..])
  }

  function TextOf(p: Page): Text {
    match p case GivenUp => Over case Page(text, _) => Of(text)
  }

  /** MAIN: on every sequence of lines the reader, with its compressed state and the verdicts,
      keeps what the full stack keeps. */
  lemma {:induction false} ReadIsStack(m: Machine, stack: seq<Frame>, items: seq<Item>)
    requires Stands(m, stack)
    ensures TextOf(Read(m, Active(stack), items)) == KeptBy(stack, items)
    decreases items
  {
    if items != [] {
      match items[0] {
        case Plain(id) => ReadIsStack(m, stack, items[1..]);
        case Dot(line) =>
          StepStands(m, stack, line);
          VerdictIsActive(m, stack, line);
          var a := CondEval(m, line);
          if a.Answer? { ReadIsStack(a.m, Eval(stack, line).stack, items[1..]); }
      }
    }
  }

  // ----- Well-nested documents.

  /** Skipped text leaves no trace, whatever it is. */
  lemma {:induction false} SkipDoc(m: Machine, doc: Doc, tail: seq<Item>)
    requires m.skipLine && m.values != []
    ensures Read(m, false, Lines(doc, tail)) == Read(m, false, tail)
    decreases doc
  {
    match doc
    case End =>
    case Text(id, rest) =>
      ReadPlain(m, false, id, Lines(rest, tail));
      SkipDoc(m, rest, tail);
    case Chain(c, body, arms, rest) =>
      var after := [Dot(Endif)] + Lines(rest, tail);
      var m' := m.(skipIfLevel := m.skipIfLevel + 1);
      ReadDot(m, false, If(c), Lines(body, ArmLines(arms, after)));
      SkipDoc(m', body, ArmLines(arms, after));
      SkipArms(m', arms, after);
      ReadDot(m', false, Endif, Lines(rest, tail));
      SkipDoc(m, rest, tail);
  }

  lemma {:induction false} SkipArms(m: Machine, arms: Arms, tail: seq<Item>)
    requires m.skipLine && m.values != [] && m.skipIfLevel > 0
    ensures Read(m, false, ArmLines(arms, tail)) == Read(m, false, tail)
    decreases arms
  {
    match arms
    case NoArm =>
    case ElifArm(c, body, more) =>
      ReadDot(m, false, Elif(c), Lines(body, ArmLines(more, tail)));
      SkipDoc(m, body, ArmLines(more, tail));
      SkipArms(m, more, tail);
    case ElseArm(body) =>
      ReadDot(m, false, Else, Lines(body, tail));
      SkipDoc(m, body, tail);
  }

  /** Once a branch has been chosen the other ones are skipped. */
  lemma {:induction false} LaterArms(m: Machine, keep: bool, arms: Arms, tail: seq<Item>)
    requires m.values != [] && Top(m) && m.skipIfLevel == 0 && AllParsed(arms)
    ensures Read(m, keep, ArmLines(arms, [Dot(Endif)] + tail))
            == Read(Machine(m.values[..|m.values| - 1], 0, false), true, tail)
    decreases arms
  {
    var after := [Dot(Endif)] + tail;
    var m' := m.(skipLine := true);
    match arms
    case NoArm => ReadDot(m, keep, Endif, tail);
    case ElifArm(c, body, more) =>
      ReadDot(m, keep, Elif(c), Lines(body, ArmLines(more, after)));
      SkipDoc(m', body, ArmLines(more, after));
      LaterArms(m', false, more, tail);
    case ElseArm(body) =>
      ReadDot(m, keep, Else, Lines(body, after));
      SkipDoc(m', body, after);
      ReadDot(m', false, Endif, tail);
  }

  lemma UnderUnder(a: seq<int>, b: seq<int>, p: Page)
    ensures Under(a, Under(b, p)) == Under(a + b, p)
  {
    if p.Page? { assert (a + b) + p.text == a + (b + p.text); }
  }

  /** The state inside a branch that is read. */
  function Inside(m: Machine): Machine {
    Machine(m.values + [true], 0, false)
  }

  lemma Leave(m: Machine)
    requires m.skipIfLevel == 0 && !m.skipLine
    ensures var i := Inside(m); i.values != [] && Top(i) && Machine(i.values[..|i.values| - 1], 0, false) == m
  {
  }

  /** A branch that is read, and the rest of its chain. */
  lemma {:induction false} ReadBranch(m: Machine, body: Doc, more: Arms, depth: nat, tail: seq<Item>)
    requires m.skipIfLevel == 0 && !m.skipLine && |m.values| + 1 + depth <= MAXIF
    requires Readable(body, depth) && AllParsed(more)
    ensures Read(Inside(m), true, Lines(body, ArmLines(more, [Dot(Endif)] + tail))) ==
              Under(Kept(body), Read(m, true, tail))
    decreases body, 1
  {
    Leave(m);
    ReadDoc(Inside(m), body, depth, ArmLines(more, [Dot(Endif)] + tail));
    LaterArms(Inside(m), true, more, tail);
  }

  /** MAIN: of every makefile whose conditions are well formed and whose chains are not too
      deep, the program keeps exactly the lines all of whose enclosing chains are in their first
      branch with a true condition, and it leaves its state as it was. */
  lemma {:induction false} ReadDoc(m: Machine, doc: Doc, depth: nat, tail: seq<Item>)
    requires m.skipIfLevel == 0 && !m.skipLine && |m.values| + depth <= MAXIF && Readable(doc, depth)
    ensures Read(m, true, Lines(doc, tail)) == Under(Kept(doc), Read(m, true, tail))
    decreases doc, 0
  {
    match doc
    case End =>
    case Text(id, rest) =>
      ReadPlain(m, true, id, Lines(rest, tail));
      ReadDoc(m, rest, depth, tail);
      UnderUnder([id], Kept(rest), Read(m, true, tail));
    case Chain(c, body, arms, rest) =>
      var after := Lines(rest, tail);
      ReadDot(m, true, If(c), Lines(body, ArmLines(arms, [Dot(Endif)] + after)));
      if c.value {
        ReadBranch(m, body, arms, depth - 1, after);
      } else {
        var m' := Machine(m.values + [false], 0, true);
        SkipDoc(m', body, ArmLines(arms, [Dot(Endif)] + after));
        ReadArms(m, arms, depth - 1, after);
      }
      ReadDoc(m, rest, depth, tail);
      UnderUnder(if c == Parsed(true) then Kept(body) else KeptArm(arms), Kept(rest), Read(m, true, tail));
  }

  /** No branch has been chosen so far. */
  lemma {:induction false} ReadArms(m: Machine, arms: Arms, depth: nat, tail: seq<Item>)
    requires m.skipIfLevel == 0 && !m.skipLine && |m.values| + 1 + depth <= MAXIF && ReadableArms(arms, depth)
    ensures Read(Machine(m.values + [false], 0, true), false, ArmLines(arms, [Dot(Endif)] + tail))
            == Under(KeptArm(arms), Read(m, true, tail))
    decreases arms, 1
  {
    var open := Machine(m.values + [false], 0, true);
    var after := [Dot(Endif)] + tail;
    match arms
    case NoArm =>
      ReadDot(open, false, Endif, tail);
      assert open.values[..|m.values|] == m.values;
    case ElifArm(c, body, more) =>
      ReadDot(open, false, Elif(c), Lines(body, ArmLines(more, after)));
      assert open.values[|m.values| := true] == m.values + [true];
      assert open.values[|m.values| := false] == open.values;
      if c.value {
        ReadBranch(m, body, more, depth, tail);
      } else {
        SkipDoc(open, body, ArmLines(more, after));
        ReadArms(m, more, depth, tail);
      }
    case ElseArm(body) =>
      ReadDot(open, false, Else, Lines(body, after));
      assert open.values[|m.values| := true] == m.values + [true];
      ReadBranch(m, body, NoArm, depth, tail);
  }

  // ----- Chains that are too deep.

  lemma {:induction false} TooDeep(m: Machine, doc: Doc, depth: nat, n: nat, tail: seq<Item>)
    requires m.skipIfLevel == 0 && !m.skipLine && |m.values| + depth == MAXIF
    requires Readable(doc, n) && !Readable(doc, depth)
    ensures Read(m, true, Lines(doc, tail)) == GivenUp
    decreases doc
  {
    match doc
    case Text(id, rest) =>
      ReadPlain(m, true, id, Lines(rest, tail));
      TooDeep(m, rest, depth, n, tail);
    case Chain(c, body, arms, rest) =>
      var after := [Dot(Endif)] + Lines(rest, tail);
      ReadDot(m, true, If(c), Lines(body, ArmLines(arms, after)));
      if depth > 0 {
        if c.value && !Readable(body, depth - 1) {
          TooDeep(Inside(m), body, depth - 1, n - 1, ArmLines(arms, after));
        } else if !c.value {
          SkipDoc(Machine(m.values + [false], 0, true), body, ArmLines(arms, after));
          if ReadableArms(arms, depth - 1) {
            ReadArms(m, arms, depth - 1, Lines(rest, tail));
            TooDeep(m, rest, depth, n, tail);
          } else {
            ArmsTooDeep(m, arms, depth - 1, n - 1, Lines(rest, tail));
          }
        } else {
          ReadBranch(m, body, arms, depth - 1, Lines(rest, tail));
          TooDeep(m, rest, depth, n, tail);
        }
      }
  }

  lemma {:induction false} ArmsTooDeep(m: Machine, arms: Arms, depth: nat, n: nat, tail: seq<Item>)
    requires m.skipIfLevel == 0 && !m.skipLine && |m.values| + 1 + depth == MAXIF
    requires ReadableArms(arms, n) && !ReadableArms(arms, depth)
    ensures Read(Machine(m.values + [false], 0, true), false, ArmLines(arms, [Dot(Endif)] + tail)) == GivenUp
    decreases arms
  {
    var open := Machine(m.values + [false], 0, true);
    var after := [Dot(Endif)] + tail;
    match arms
    case ElifArm(c, body, more) =>
      ReadDot(open, false, Elif(c), Lines(body, ArmLines(more, after)));
      assert open.values[|m.values| := true] == m.values + [true];
      assert open.values[|m.values| := false] == open.values;
      if c.value {
        TooDeep(Inside(m), body, depth, n, ArmLines(more, after));
      } else {
        SkipDoc(open, body, ArmLines(more, after));
        ArmsTooDeep(m, more, depth, n, tail);
      }
    case ElseArm(body) =>
      ReadDot(open, false, Else, Lines(body, after));
      assert open.values[|m.values| := true] == m.values + [true];
      TooDeep(Inside(m), body, depth, n, after);
  }

  /** MAIN, for a whole makefile whose conditions are well formed: the program keeps what it is
      meant to keep if no more than 30 chains that are being read stand inside each other, and
      otherwise gives up. */
  lemma MakefileKept(doc: Doc, n: nat)
    requires Readable(doc, n)
    ensures var start := Machine([], 0, false);
            Read(start, true, Lines(doc, [])) == if Readable(doc, 30) then Page(Kept(doc), start) else GivenUp
  {
    var start := Machine([], 0, false);
    if Readable(doc, MAXIF) {
      ReadDoc(start, doc, MAXIF, []);
      assert Kept(doc) + [] == Kept(doc);
    } else {
      TooDeep(start, doc, MAXIF, n, []);
    }
  }
}
