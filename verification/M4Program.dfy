/** The evaluator as it is written: a cursor in a buffer, moved by reading characters and
    putting them back (m4/expr.c). */
module M4Program {
  import opened M4Eval
  import opened M4Chars
  import opened M4Grammar

  const EQL := 0
  const NEQ := 1
  const LSS := 2
  const LEQ := 3
  const GTR := 4
  const GEQ := 5

  predicate EqrelIs(op: Op, k: int) {
    match op
    case Eq(_) => k == EQL
    case Ne => k == NEQ
    case Lt => k == LSS
    case Le => k == LEQ
    case Gt => k == GTR
    case Ge => k == GEQ
    case _ => false
  }

  lemma EqrelDecides(op: Op, k: int, a: int)
    requires EqrelIs(op, k)
    ensures forall b :: Apply(op, a, b)
                        == Val(Truth(if k == EQL then a == b else if k == NEQ then a != b else if k == LEQ then a <= b
                                     else if k == LSS then a < b else if k == GTR then a > b else a >= b))
  {
  }

  // ----- The loop of a binary level, one round at a time.

  /** After the first operand. */
  ghost predicate LoopBegins(k: nat, q: Parsed, p: Parsed)
    requires IsBinary(k)
  {
    match q case Err(e) => p == Err(e) case Ok(v, rest) => p == Tail(k, v, Skip(rest))
  }

  /** After another operand, with the value `x` made of both. */
  ghost predicate LoopGoesOn(k: nat, op: Op, v: int, q: Parsed, p: Parsed)
    requires IsBinary(k)
  {
    match q
    case Err(e) => p == Err(e)
    case Ok(w, rest) => match Apply(op, v, w) case Fail(e) => p == Err(e) case Val(x) => p == Tail(k, x, Skip(rest))
  }

  lemma FirstOperand(k: nat, s: string)
    requires IsBinary(k)
    ensures LoopBegins(k, Parse(k + 1, s), Parse(k, s))
  {
    var q := Parse(k + 1, s);
    if q.Ok? { TailSkips(k, Val(q.v), q.rest); }
  }

  lemma NextOperand(k: nat, v: int, t: string, op: Op, n: nat)
    requires IsBinary(k) && Skip(t) == t && ReadOp(k, t) == Read(op, n)
    ensures LoopGoesOn(k, op, v, Parse(k + 1, t[n..]), Tail(k, v, t))
  {
    var q := Parse(k + 1, t[n..]);
    if q.Ok? && Apply(op, v, q.v).Val? { TailSkips(k, Apply(op, v, q.v), q.rest); }
  }

  lemma NoOperand(k: nat, v: int, t: string)
    requires IsBinary(k) && Skip(t) == t && ReadOp(k, t).NoOp?
    ensures Tail(k, v, t) == Ok(v, t)
  {
  }

  lemma DigitsStep(s: string, base: int, v: int)
    requires s != "" && IsDigit(s[0], base)
    ensures Digits(s, base, v) == Digits(s[1..], base, Word(Word(v * base) + (s[0] as int - '0' as int)))
  {
  }

  lemma DigitsEnd(s: string, base: int, v: int)
    requires s != "" ==> !IsDigit(s[0], base)
    ensures Digits(s, base, v) == (v, s)
  {
  }

  class Evaluator {
    /** The expression; it is ended by NUL. */
    const buf: string
    /** The character behind the NUL: `geteqrel` looks at it. */
    const beyond: char
    var nxtch: nat

    constructor (text: string, after: char)
      requires EOS !in text
      ensures buf == text && beyond == after && nxtch == 0 && Within(nxtch)
    {
      buf, beyond, nxtch := text, after, 0;
    }

    /** The cursor `i` is in the text or at its end. */
    predicate Within(i: nat) {
      EOS !in buf && i <= |buf|
    }

    function Cell(i: nat): char
      requires i <= |buf| + 1
    {
      if i < |buf| then buf[i] else if i == |buf| then EOS else beyond
    }

    function Rest(i: nat): string
      requires i <= |buf|
    {
      buf[i..]
    }

    /** The cursor and the value after a nonterminal that `p` describes. */
    ghost predicate Agrees(p: Parsed, start: nat, i: nat, r: Value) {
      match p
      case Err(e) => r == Fail(e)
      case Ok(v, rest) => Within(i) && start < i && r == Val(v) && Rest(i) == rest
    }

    method Getch() returns (c: char)
      requires nxtch <= |buf| + 1
      modifies this
      ensures nxtch == old(nxtch) + 1 && c == Cell(old(nxtch))
    {
      c := if nxtch < |buf| then buf[nxtch] else if nxtch == |buf| then EOS else beyond;
      nxtch := nxtch + 1;
    }

    method Ungetch()
      requires nxtch > 0
      modifies this
      ensures nxtch == old(nxtch) - 1
    {
      nxtch := nxtch - 1;
    }

    /** `c` has just been read, and in front of it there is no white space. */
    ghost predicate At(i: nat, c: char, s: string) {
      && EOS !in buf && 0 < i <= |buf| + 1
      && Cell(i - 1) == c && Rest(i - 1) == s && Skip(s) == s
      && (s == "" <==> c == EOS) && (s != "" ==> s[0] == c)
    }

    method Skipws() returns (c: char)
      requires Within(nxtch)
      modifies this
      ensures At(nxtch, c, Skip(Rest(old(nxtch)))) && old(nxtch) < nxtch
    {
      ghost var start := nxtch;
      c := Getch();
      while c <= ' ' && c > EOS
        invariant EOS !in buf && start < nxtch <= |buf| + 1 && c == Cell(nxtch - 1)
        invariant Skip(Rest(nxtch - 1)) == Skip(Rest(start))
        decreases |buf| + 1 - nxtch
      {
        assert Rest(nxtch - 1)[1..] == Rest(nxtch);
        c := Getch();
      }
      SkipTwice(Rest(start));
    }

    /** What one more character tells about the rest of the text. */
    lemma Next(i: nat, c: char, s: string)
      requires At(i, c, s)
      ensures c != EOS ==> i <= |buf| && Rest(i) == s[1..]
      ensures forall d :: d != EOS ==> (Begins(s, d) <==> c == d)
      ensures forall d :: c != EOS && d != EOS ==> (Begins2(s, c, d) <==> Cell(i) == d)
      ensures c != EOS && i < |buf| ==> Rest(i + 1) == s[2..]
    {
    }

    // ----- The nonterminals.

    method Query() returns (r: Value)
      requires Within(nxtch)
      modifies this
      ensures Agrees(Parse(0, Rest(old(nxtch))), old(nxtch), nxtch, r)
      decreases |buf| - nxtch, 10
    {
      ghost var s := Rest(nxtch);
      var test := Lor();
      assert Parse(0, s) == M4Eval.Query(s);
      if test.Fail? { return test; }
      ghost var t := Skip(Rest(nxtch));
      var c := Skipws();
      Next(nxtch, c, t);
      if c != '?' {
        Ungetch();
        return test;
      }
      var yes := Query();
      if yes.Fail? { return yes; }
      ghost var t1 := Skip(Rest(nxtch));
      c := Skipws();
      Next(nxtch, c, t1);
      if c != ':' { return Fail(BadQuery); }
      var no := Query();
      if no.Fail? { return no; }
      return if test.v != 0 then yes else no;
    }

    method Lor() returns (r: Value)
      requires Within(nxtch)
      modifies this
      ensures Agrees(Parse(1, Rest(old(nxtch))), old(nxtch), nxtch, r)
      decreases |buf| - nxtch, 9
    {
      hide Parse, Tail, Skip;
      ghost var p, start := Parse(1, Rest(nxtch)), nxtch;
      FirstOperand(1, Rest(nxtch));
      r := Land();
      if r.Fail? { return; }
      var vl := r.v;
      ghost var t := Skip(Rest(nxtch));
      var c := Skipws();
      while c == '|'
        invariant At(nxtch, c, t) && start < nxtch && p == Tail(1, vl, t)
        decreases |buf| + 1 - nxtch
      {
        Next(nxtch, c, t);
        var d := Getch();
        if d != '|' { Ungetch(); }
        NextOperand(1, vl, t, LOr(d == '|'), if d == '|' then 2 else 1);
        r := Land();
        if r.Fail? { return; }
        vl := Truth(vl != 0 || r.v != 0);
        t := Skip(Rest(nxtch));
        c := Skipws();
      }
      Next(nxtch, c, t);
      NoOperand(1, vl, t);
      Ungetch();
      r := Val(vl);
    }

    method Land() returns (r: Value)
      requires Within(nxtch)
      modifies this
      ensures Agrees(Parse(2, Rest(old(nxtch))), old(nxtch), nxtch, r)
      decreases |buf| - nxtch, 8
    {
      hide Parse, Tail, Skip;
      ghost var p, start := Parse(2, Rest(nxtch)), nxtch;
      FirstOperand(2, Rest(nxtch));
      r := Not();
      if r.Fail? { return; }
      var vl := r.v;
      ghost var t := Skip(Rest(nxtch));
      var c := Skipws();
      while c == '&'
        invariant At(nxtch, c, t) && start < nxtch && p == Tail(2, vl, t)
        decreases |buf| + 1 - nxtch
      {
        Next(nxtch, c, t);
        var d := Getch();
        if d != '&' { Ungetch(); }
        NextOperand(2, vl, t, LAnd(d == '&'), if d == '&' then 2 else 1);
        r := Not();
        if r.Fail? { return; }
        vl := Truth(vl != 0 && r.v != 0);
        t := Skip(Rest(nxtch));
        c := Skipws();
      }
      Next(nxtch, c, t);
      NoOperand(2, vl, t);
      Ungetch();
      r := Val(vl);
    }

    method Not() returns (r: Value)
      requires Within(nxtch)
      modifies this
      ensures Agrees(Parse(3, Rest(old(nxtch))), old(nxtch), nxtch, r)
      decreases |buf| - nxtch, 7
    {
      ghost var t := Skip(Rest(nxtch));
      ghost var start := nxtch;
      var c := Skipws();
      Next(nxtch, c, t);
      var d := EOS;
      if c == '!' { d := Getch(); }
      if c == '!' && d != '=' {
        Ungetch();
        r := Not();
        if r.Val? { r := Val(Truth(r.v == 0)); }
        return;
      }
      if c == '!' { Ungetch(); }
      Ungetch();
      r := Eqrel();
    }

    method Eqrel() returns (r: Value)
      requires Within(nxtch)
      modifies this
      ensures Agrees(Parse(4, Rest(old(nxtch))), old(nxtch), nxtch, r)
      decreases |buf| - nxtch, 6
    {
      hide Parse, Tail, Skip, ReadOp;
      ghost var p, start := Parse(4, Rest(nxtch)), nxtch;
      FirstOperand(4, Rest(nxtch));
      r := Shift();
      if r.Fail? { return; }
      var vl := r.v;
      ghost var t := Skip(Rest(nxtch));
      SkipTwice(Rest(nxtch));
      var k := Geteqrel();
      while k != -1
        invariant p == Tail(4, vl, t) && Skip(t) == t && EqrelRead(t, nxtch, k) && start < nxtch
        decreases |buf| + 1 - nxtch, k
      {
        ghost var read := ReadOp(4, t);
        NextOperand(4, vl, t, read.op, read.len);
        EqrelDecides(read.op, k, vl);
        r := Shift();
        if r.Fail? { return; }
        vl := Truth(if k == EQL then vl == r.v else if k == NEQ then vl != r.v else if k == LEQ then vl <= r.v
                    else if k == LSS then vl < r.v else if k == GTR then vl > r.v else vl >= r.v);
        t := Skip(Rest(nxtch));
        SkipTwice(Rest(nxtch));
        k := Geteqrel();
      }
      NoOperand(4, vl, t);
      r := Val(vl);
    }

    /** What `geteqrel` has read in front of the text `t`, and where it leaves the cursor. */
    ghost predicate EqrelRead(t: string, i: nat, k: int) {
      var read := ReadOp(4, t);
      && Within(i)
      && (k == -1 <==> read.NoOp?)
      && (read.NoOp? ==> Rest(i) == t)
      && (read.Read? ==> EQL <= k <= GEQ && Rest(i) == t[read.len..] && EqrelIs(read.op, k))
    }

    method Geteqrel() returns (k: int)
      requires Within(nxtch)
      modifies this
      ensures EqrelRead(Skip(Rest(old(nxtch))), nxtch, k) && old(nxtch) <= nxtch
    {
      ghost var t := Skip(Rest(nxtch));
      var c1 := Skipws();
      Next(nxtch, c1, t);
      var c2 := Getch();
      if c1 == '=' {
        if c2 != '=' { Ungetch(); }
        return EQL;
      } else if c1 == '!' {
        if c2 == '=' { return NEQ; }
        Ungetch();
        Ungetch();
        return -1;
      } else if c1 == '<' {
        if c2 == '=' { return LEQ; }
        Ungetch();
        return LSS;
      } else if c1 == '>' {
        if c2 == '=' { return GEQ; }
        Ungetch();
        return GTR;
      } else {
        Ungetch();
        Ungetch();
        return -1;
      }
    }

    method Shift() returns (r: Value)
      requires Within(nxtch)
      modifies this
      ensures Agrees(Parse(5, Rest(old(nxtch))), old(nxtch), nxtch, r)
      decreases |buf| - nxtch, 5
    {
      hide Parse, Tail, Skip, Power2, Word;
      ghost var p, start := Parse(5, Rest(nxtch)), nxtch;
      FirstOperand(5, Rest(nxtch));
      r := Primary();
      if r.Fail? { return; }
      var vl := r.v;
      ghost var t := Skip(Rest(nxtch));
      var c, more := ShiftOperator();
      while more
        invariant ShiftRead(nxtch, c, more, t) && start < nxtch && p == Tail(5, vl, t)
        decreases |buf| + 2 - nxtch, more
      {
        ghost var op := if c == '<' then Shl else Shr;
        NextOperand(5, vl, t, op, 2);
        r := Primary();
        if r.Fail? { return; }
        if !(0 <= r.v < 32) { return Fail(Undefined); }
        Power2Positive(r.v);
        vl := Word(if c == '<' then vl * Power2(r.v) else vl / Power2(r.v));
        t := Skip(Rest(nxtch));
        c, more := ShiftOperator();
      }
      NoOperand(5, vl, t);
      if c == '<' || c == '>' { Ungetch(); }
      Ungetch();
      r := Val(vl);
    }

    /** A shift operator has been read in front of `t`, or one character of what is there, or
        two if the first could have begun one. */
    ghost predicate ShiftRead(i: nat, c: char, more: bool, t: string) {
      && EOS !in buf && Skip(t) == t
      && (more ==> Within(i) && ReadOp(5, t) == Read(if c == '<' then Shl else Shr, 2) && t[2..] == Rest(i))
      && (!more ==> ReadOp(5, t).NoOp? && var back := if c == '<' || c == '>' then 2 else 1;
                    back <= i <= |buf| + back && Rest(i - back) == t)
    }

    /** The condition of the loop of `shift`. */
    method ShiftOperator() returns (c: char, more: bool)
      requires Within(nxtch)
      modifies this
      ensures ShiftRead(nxtch, c, more, Skip(Rest(old(nxtch)))) && old(nxtch) < nxtch
      ensures !more ==> old(nxtch) + (if c == '<' || c == '>' then 2 else 1) <= nxtch
    {
      ghost var t := Skip(Rest(nxtch));
      c := Skipws();
      Next(nxtch, c, t);
      more := false;
      if c == '<' || c == '>' {
        var d := Getch();
        more := d == c;
      }
    }

    method Primary() returns (r: Value)
      requires Within(nxtch)
      modifies this
      ensures Agrees(Parse(6, Rest(old(nxtch))), old(nxtch), nxtch, r)
      decreases |buf| - nxtch, 4
    {
      hide Parse, Tail, Skip, Word;
      ghost var p, start := Parse(6, Rest(nxtch)), nxtch;
      FirstOperand(6, Rest(nxtch));
      r := Term();
      if r.Fail? { return; }
      var vl := r.v;
      ghost var t := Skip(Rest(nxtch));
      var c := Skipws();
      while c == '+' || c == '-'
        invariant At(nxtch, c, t) && start < nxtch && p == Tail(6, vl, t)
        decreases |buf| + 1 - nxtch
      {
        Next(nxtch, c, t);
        NextOperand(6, vl, t, if c == '+' then Add else Sub, 1);
        r := Term();
        if r.Fail? { return; }
        vl := Word(if c == '+' then vl + r.v else vl - r.v);
        t := Skip(Rest(nxtch));
        c := Skipws();
      }
      Next(nxtch, c, t);
      NoOperand(6, vl, t);
      Ungetch();
      r := Val(vl);
    }

    method Term() returns (r: Value)
      requires Within(nxtch)
      modifies this
      ensures Agrees(Parse(7, Rest(old(nxtch))), old(nxtch), nxtch, r)
      decreases |buf| - nxtch, 3
    {
      hide Parse, Tail, Skip, Word;
      ghost var p, start := Parse(7, Rest(nxtch)), nxtch;
      FirstOperand(7, Rest(nxtch));
      r := Exp();
      if r.Fail? { return; }
      var vl := r.v;
      ghost var t := Skip(Rest(nxtch));
      var c := Skipws();
      while c == '*' || c == '/' || c == '%'
        invariant At(nxtch, c, t) && start < nxtch && p == Tail(7, vl, t)
        decreases |buf| + 1 - nxtch
      {
        Next(nxtch, c, t);
        NextOperand(7, vl, t, if c == '*' then Mul else if c == '/' then Div else Mod, 1);
        r := Exp();
        if r.Fail? { return; }
        if c != '*' && r.v == 0 { return Fail(Undefined); }
        vl := Word(if c == '*' then vl * r.v else if c == '/' then Quotient(vl, r.v) else vl - r.v * Quotient(vl, r.v));
        t := Skip(Rest(nxtch));
        c := Skipws();
      }
      Next(nxtch, c, t);
      NoOperand(7, vl, t);
      Ungetch();
      r := Val(vl);
    }

    method Exp() returns (r: Value)
      requires Within(nxtch)
      modifies this
      ensures Agrees(Parse(8, Rest(old(nxtch))), old(nxtch), nxtch, r)
      decreases |buf| - nxtch, 2
    {
      r := Unary();
      if r.Fail? { return; }
      var vl := r.v;
      ghost var t := Skip(Rest(nxtch));
      var c := Skipws();
      Next(nxtch, c, t);
      var power := c == '^';
      if c == '*' {
        var d := Getch();
        if d == '*' { power := true; } else { Ungetch(); }
      }
      if power {
        r := Exp();
        if r.Val? {
          var n := Product(vl, r.v);
          r := Val(n);
        }
        return;
      }
      Ungetch();
    }

    method Unary() returns (r: Value)
      requires Within(nxtch)
      modifies this
      ensures Agrees(Parse(9, Rest(old(nxtch))), old(nxtch), nxtch, r)
      decreases |buf| - nxtch, 1
    {
      ghost var t := Skip(Rest(nxtch));
      var c := Skipws();
      Next(nxtch, c, t);
      if c == '+' || c == '-' || c == '~' {
        r := Unary();
        if r.Val? { r := Val(if c == '-' then Word(-r.v) else if c == '~' then -r.v - 1 else r.v); }
        return;
      }
      Ungetch();
      r := Factor();
    }

    method Factor() returns (r: Value)
      requires Within(nxtch) && Skip(Rest(nxtch)) == Rest(nxtch)
      modifies this
      ensures Agrees(M4Eval.Factor(Rest(old(nxtch))), old(nxtch), nxtch, r)
      decreases |buf| - nxtch, 0
    {
      ghost var s := Rest(nxtch);
      var c := Skipws();
      Next(nxtch, c, s);
      if c == '(' {
        r := Query();
        if r.Fail? { return; }
        ghost var t := Skip(Rest(nxtch));
        c := Skipws();
        Next(nxtch, c, t);
        if c != ')' { return Fail(BadFactor); }
        return;
      }
      Ungetch();
      r := Constant();
    }

    method Constant() returns (r: Value)
      requires Within(nxtch) && Skip(Rest(nxtch)) == Rest(nxtch) && !Begins(Rest(nxtch), '(')
      modifies this
      ensures Agrees(M4Eval.Factor(Rest(old(nxtch))), old(nxtch), nxtch, r)
    {
      ghost var s := Rest(nxtch);
      var c := Skipws();
      Next(nxtch, c, s);
      if c == '\'' {
        r := Characters();
        return;
      }
      Ungetch();
      r := Num();
    }

    /** A character constant, behind its quote. */
    method Characters() returns (r: Value)
      requires Within(nxtch)
      modifies this
      ensures Agrees(Quoted(Rest(old(nxtch)), 4), old(nxtch), nxtch, r)
    {
      hide Digits, Quoted, ReadChar, Assemble;
      ghost var s, start := Rest(nxtch), nxtch;
      var v := new int[4];
      var i := 0;
      CollectedNone(Quoted(s, 4));
      assert v[..0] == [];
      while i < 4
        invariant 0 <= i <= 4 && Within(nxtch) && start <= nxtch &&
                  Quoted(s, 4) == Collected(v[..i], Quoted(Rest(nxtch), 4 - i))
        decreases 4 - i
      {
        ghost var t := Rest(nxtch);
        var c := Getch();
        if c == '\'' {
          Ungetch();
          break;
        }
        r := OneCharacter(c);
        if r.Fail? {
          PastFails(t, 4 - i);
          return;
        }
        CollectedMore(v[..i], t, 4 - i, r.v, Rest(nxtch));
        v[i] := r.v;
        assert v[..i + 1] == v[..i] + [r.v];
        i := i + 1;
      }
      assert i < 4 ==> Begins(Rest(nxtch), '\'');
      CollectedEnd(v[..i], Rest(nxtch), 4 - i);
      ghost var t := Rest(nxtch);
      var c := '\'';
      if i != 0 { c := Getch(); }
      if i == 0 || c != '\'' { return Fail(BadCharacter); }
      assert Begins(t, '\'') && t[1..] == Rest(nxtch);
      var value := FromBytes(v, i);
      r := Val(value);
    }

    /** One character of a constant, `c` and what belongs to it. The program does not look for the
        end of its buffer here: it goes on reading behind it. */
    method OneCharacter(c: char) returns (r: Value)
      requires 0 < nxtch <= |buf| + 1 && EOS !in buf && c == Cell(nxtch - 1)
      modifies this
      ensures match ReadChar(Rest(old(nxtch) - 1))
              case Past => r == Fail(Overrun)
              case One(v, rest) => r == Val(v) && Within(nxtch) && old(nxtch) <= nxtch && Rest(nxtch) == rest
    {
      hide Digits;
      ghost var s := Rest(nxtch - 1);
      if c == EOS { return Fail(Overrun); }
      assert s[0] == c && s[1..] == Rest(nxtch);
      if c != '\\' { return Val(c as int); }
      var d := Getch();
      if d == EOS { return Fail(Overrun); }
      assert s[1] == d && s[2..] == Rest(nxtch);
      if '0' <= d <= '7' {
        Ungetch();
        r := Num();
        return Val(r.v % 256);
      }
      return Val(Escape(d));
    }

    method Num() returns (r: Value)
      requires Within(nxtch) && Skip(Rest(nxtch)) == Rest(nxtch) && !Begins(Rest(nxtch), '(') &&
               !Begins(Rest(nxtch), '\'')
      modifies this
      ensures Agrees(M4Eval.Factor(Rest(old(nxtch))), old(nxtch), nxtch, r)
    {
      hide Parse, Tail, Skip, Digits;
      ghost var s := Rest(nxtch);
      ghost var start := nxtch;
      var c := Skipws();
      Next(nxtch, c, s);
      var base := if c == '0' then 8 else 10;
      var rval, ndig := 0, 0;
      while IsDigit(c, base)
        invariant 0 < nxtch <= |buf| + 1 && start + ndig + 1 == nxtch && c == Cell(nxtch - 1)
        invariant Digits(s, base, 0) == Digits(Rest(nxtch - 1), base, rval)
        invariant ndig == 0 ==> Rest(nxtch - 1) == s
        invariant ndig > 0 ==> s != "" && IsDigit(s[0], 10)
        decreases |buf| + 1 - nxtch
      {
        assert Rest(nxtch - 1)[1..] == Rest(nxtch);
        DigitsStep(Rest(nxtch - 1), base, rval);
        rval := Word(Word(rval * base) + (c as int - '0' as int));
        c := Getch();
        ndig := ndig + 1;
      }
      DigitsEnd(Rest(nxtch - 1), base, rval);
      Ungetch();
      if ndig == 0 { return Fail(BadConstant); }
      r := Val(rval);
    }

    /** `expr`: the value of the whole text. On a `Fail` the program prints a message and
        returns 0. */
    method Expr() returns (r: Value)
      requires EOS !in buf
      modifies this
      ensures r == Evaluate(buf)
    {
      nxtch := 0;
      assert Rest(0) == buf;
      r := Query();
      if r.Fail? { return; }
      var c := Skipws();
      if c != EOS { return Fail(IllFormed); }
    }
  }

  /** The loop that puts a character constant together. */
  method FromBytes(v: array<int>, n: nat) returns (value: int)
    requires n <= v.Length
    ensures value == Assemble(v[..n], 0)
  {
    value := 0;
    var i := n;
    assert v[n..n] == [];
    while i > 0
      invariant 0 <= i <= n && value == Assemble(v[i..n], 0)
    {
      i := i - 1;
      assert v[i..n][1..] == v[i + 1..n];
      value := Word(value * 256);
      value := Word(value + v[i]);
    }
    assert v[0..n] == v[..n];
  }

  /** The loop of `exp`. */
  method Product(base: int, exponent: int) returns (n: int)
    ensures n == Power(base, exponent)
  {
    n := 1;
    var vr := exponent;
    ghost var done := 0;
    while vr > 0
      invariant done >= 0 && n == Power(base, done) && (exponent > 0 ==> vr + done == exponent && vr >= 0) &&
                (exponent <= 0 ==> done == 0)
    {
      vr, done := vr - 1, done + 1;
      n := Word(n * base);
    }
  }
}
