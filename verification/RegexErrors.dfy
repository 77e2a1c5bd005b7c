/** Which error the parser of patterns reports. */
module RegexErrors {
  import opened RegexTree
  import opened RegexLex
  import opened RegexParse
  import opened RegexSpell
  import opened RegexClass
  import opened RegexWritten

  /** Where an operand should begin, `s` fails with `e`; what begins is not a closing parenthesis. */
  predicate OperandFails(s: seq<nat>, e: Error) {
    var r := Lex(s);
    r == Err(e) || (r.Ok? && !r.value.tok.TClose? && Primary(r.value) == Err(e))
  }

  /** `s` fails with `e` where a pattern should begin. */
  predicate PatternFails(s: seq<nat>, e: Error) {
    var r := Lex(s);
    r == Err(e) || (r.Ok? && !r.value.tok.TClose? && Regexp(r.value) == Err(e))
  }

  lemma OperandThenPattern(s: seq<nat>, e: Error)
    requires OperandFails(s, e)
    ensures PatternFails(s, e)
  {
    hide Lex, Primary;
  }

  /** A pattern that fails where it begins, as a whole. */
  lemma WholeFails(s: seq<nat>, e: Error)
    requires PatternFails(s, e) && s != []
    ensures Reparse(s) == Err(e)
  {
    hide Regexp;
    assert Lex(s).Ok? ==> Lex(s).value.tok != TEnd by { NotEnd(s); }
  }

  lemma NotEnd(s: seq<nat>)
    requires s != []
    ensures Lex(s).Ok? ==> Lex(s).value.tok != TEnd
  {
  }

  /** Behind an opening parenthesis. */
  lemma InsideFails(s: seq<nat>, e: Error)
    requires PatternFails(s, e)
    ensures OperandFails(['(' as nat] + s, e)
  {
    hide Lex, Regexp;
    LexOne('(', s);
  }

  /** Behind a pattern and a bar. */
  lemma BarFails(p: Written, s: seq<nat>, e: Error)
    requires Grammar(p, ['|' as nat] + s) && OperandFails(s, e)
    ensures PatternFails(Print(p) + (['|' as nat] + s), e)
  {
    hide Lex, Primary, Regexp, Grammar;
    LexOne('|', s);
    PatternReads(p, ['|' as nat] + s, Cursor(TOr, s));
  }

  /** Behind a concatenation, with something that goes on with it. */
  lemma NextFails(p: Written, s: seq<nat>, e: Error)
    requires Grammar(p, s) && Rank(p) >= 1
    requires Lex(s).Ok? && Concatenates(Lex(s).value.tok) && Primary(Lex(s).value) == Err(e)
    ensures PatternFails(Print(p) + s, e)
  {
    hide Lex, Primary, Grammar;
    TermReads(p, s, Lex(s).value);
    TermThenFails(Lex(Print(p) + s).value, TreeOf(p), Lex(s).value, e);
  }

  lemma TermThenFails(c: Cursor, t: Re, c1: Cursor, e: Error)
    requires Term(c) == Concat(t, c1) && Concatenates(c1.tok) && Primary(c1) == Err(e)
    ensures Regexp(c) == Err(e)
  {
    hide Primary;
  }

  // ----- What fails.

  /** An operator, a bar or the end is no operand. */
  lemma NoOperand(s: seq<nat>)
    requires s == [] || s[0] in ['|' as nat, '*' as nat, '+' as nat, '?' as nat]
    ensures OperandFails(s, IllegalPrimary)
  {
  }

  /** A closing parenthesis behind a pattern. */
  lemma TrailingFails(p: Written, x: seq<nat>)
    requires Grammar(p, [')' as nat] + x)
    ensures Reparse(Print(p) + ([')' as nat] + x)) == Err(SyntaxError)
  {
    hide Lex, Primary, Regexp, Grammar;
    LexOne(')', x);
    PatternReads(p, [')' as nat] + x, Cursor(TClose, x));
  }

  /** A parenthesis that is not closed where a pattern ends. */
  lemma UnclosedFails(p: Written, r: seq<nat>)
    requires Grammar(p, r) && (r == [] || r[0] == '^' as nat)
    ensures OperandFails(['(' as nat] + (Print(p) + r), SyntaxError)
  {
    hide Lex, Regexp, Grammar;
    LexEnd(r);
    PatternReads(p, r, Lex(r).value);
    LexOne('(', Print(p) + r);
  }

  lemma LexEnd(r: seq<nat>)
    requires r == [] || r[0] == '^' as nat
    ensures Lex(r).Ok? && Lex(r).value.tok == if r == [] then TEnd else THat
  {
  }

  /** The empty pattern. */
  lemma NothingFails()
    ensures Reparse([]) == Err(EmptyRegex)
  {
  }

  /** The text of a class cannot go on: a newline, or the end, perhaps behind a backslash. */
  predicate Breaks(r: seq<nat>) {
    r == [] || r[0] == '\n' as nat || r == ['\\' as nat]
  }

  lemma {:induction false} OpenClass(raw: seq<nat>, r: seq<nat>, buf: seq<nat>)
    requires Inside(raw) && buf != [] && Breaks(r)
    ensures ClassText(raw + r, buf) == Err(if r != [] && r[0] == '\n' as nat then NewlineInClass
                                           else NonterminatedClass)
    decreases |raw|
  {
    var s := raw + r;
    if raw == [] {
      assert s == r;
    } else if raw[0] == '\\' as nat {
      assert s[2..] == raw[2..] + r;
      OpenClass(raw[2..], r, buf + [BACKSLASH, s[1]]);
    } else {
      assert s[1..] == raw[1..] + r;
      OpenClass(raw[1..], r, buf + [s[0]]);
    }
  }

  /** A bracket without its end, which a newline or the end of the pattern comes before. */
  lemma ClassFails(negated: bool, raw: seq<nat>, r: seq<nat>)
    requires ClassOf(raw) && (raw[0] == '^' as nat ==> negated) && Breaks(r)
    ensures OperandFails((if negated then ['[' as nat, '^' as nat] else ['[' as nat]) + (raw + r),
                         if r != [] && r[0] == '\n' as nat then NewlineInClass else NonterminatedClass)
  {
    hide Quoted;
    var t := raw + r;
    var s := (if negated then ['[' as nat, '^' as nat] else ['[' as nat]) + t;
    if negated { assert s[1..][1..] == t; } else { assert s[1..] == t && t[0] == raw[0]; }
    if raw[0] == '\\' as nat {
      assert t[2..] == raw[2..] + r;
      assert [] + [BACKSLASH, t[1]] == [BACKSLASH, t[1]];
      OpenClass(raw[2..], r, [BACKSLASH, t[1]]);
    } else {
      assert t[1..] == raw[1..] + r && [] + [t[0]] == [t[0]];
      OpenClass(raw[1..], r, [t[0]]);
    }
  }

  /** A backslash at the end. */
  lemma BackslashFails()
    ensures OperandFails(['\\' as nat], PastEnd)
  {
  }
}
