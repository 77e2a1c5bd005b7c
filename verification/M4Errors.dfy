/** Which error m4's evaluator reports for which text. */
module M4Errors {
  import opened M4Eval
  import opened M4Chars
  import opened M4Grammar

  /** Behind an expression that cannot go on, anything but its end is ill formed. */
  lemma Trailing(e: Expr, r: string)
    requires Grammar(e) && Stops(0, r) && Meaning(e).Val?
    ensures Evaluate(Print(e) + r) == if Skip(r) == "" then Meaning(e) else Fail(IllFormed)
  {
    hide Grammar, Print, Meaning, Stops, Parse;
    Reads(e, 0, r);
    SkipTwice(r);
  }

  /** A question mark wants an expression and a colon behind it. */
  lemma MissingColon(test: Expr, ws: string, yes: Expr, r: string)
    requires Grammar(test) && Rank(test) >= 1 && Meaning(test).Val? && Spaces(ws)
    requires Grammar(yes) && Meaning(yes).Val? && Stops(0, r) && !Begins(Skip(r), ':')
    ensures Evaluate(Print(test) + (ws + ("?" + (Print(yes) + r)))) == Fail(BadQuery)
  {
    hide Grammar, Print, Meaning, Parse;
    var y := Print(yes) + r;
    var r0 := ws + ("?" + y);
    PunctuationStops(ws, '?', y, 1);
    Reads(test, 1, r0);
    Reads(yes, 0, r);
    SkipTwice(r);
    SkipTwice(r0);
    assert Skip(r0)[1..] == y;
    assert Query(Print(test) + r0) == Err(BadQuery);
    assert Parse(0, Print(test) + r0) == Query(Print(test) + r0) by { QueryIs(Print(test) + r0); }
  }

  lemma QueryIs(s: string)
    ensures Parse(0, s) == Query(s)
  {
  }

  // ----- Errors in the first operand.

  /** What goes wrong in the first factor is the error of every nonterminal. */
  lemma {:induction false} FactorFails(k: nat, s: string, e: Error)
    requires k <= 9 && Factor(Skip(s)) == Err(e) && (Skip(s) == "" || Skip(s)[0] !in {'+', '-', '~', '!'})
    ensures Parse(k, s) == Err(e)
    decreases 9 - k
  {
    hide Factor, Skip;
    if k == 3 {
      SkipTwice(s);
      FactorFails(4, Skip(s), e);
    } else if k < 9 {
      FactorFails(k + 1, s, e);
    }
  }

  lemma FirstFails(s: string, e: Error)
    requires Factor(Skip(s)) == Err(e) && (Skip(s) == "" || Skip(s)[0] !in {'+', '-', '~', '!'})
    ensures Evaluate(s) == Fail(e)
  {
    hide Parse, Factor, Skip;
    FactorFails(0, s, e);
  }

  /** Something that begins no expression is a bad constant. */
  lemma NoOperand(ws: string, s: string)
    requires Spaces(ws) && (s != "" ==> !Starter(s[0]))
    ensures Evaluate(ws + s) == Fail(BadConstant)
  {
    SkipSpaces(ws, s);
    FirstFails(ws + s, BadConstant);
  }

  /** A parenthesis wants to be closed. */
  lemma MissingClose(ws: string, e: Expr, r: string)
    requires Spaces(ws) && Grammar(e) && Meaning(e).Val? && Stops(0, r) && !Begins(Skip(r), ')')
    ensures Evaluate(ws + ("(" + (Print(e) + r))) == Fail(BadFactor)
  {
    hide Grammar, Print, Meaning, Parse, Stops;
    var s := "(" + (Print(e) + r);
    assert s[1..] == Print(e) + r;
    Reads(e, 0, r);
    SkipTwice(r);
    SkipSpaces(ws, s);
    FirstFails(ws + s, BadFactor);
  }

  lemma {:induction false} QuotedFails(items: seq<Item>, n: nat, r: string)
    requires ItemsEnd(items, r) && |items| <= n <= 4
    requires r == "" || (r[0] != '\'' && n == |items|) || (r[0] == '\'' && items == [] && n == 4)
    ensures Quoted(ItemsText(items) + r, n) == Err(if r == "" && |items| < n then Overrun else BadCharacter)
    decreases n
  {
    hide ReadChar, ItemOk, ItemText;
    if items == [] {
      assert "" + r == r;
      PastTheEnd();
    } else {
      var more := ItemsText(items[1..]) + r;
      ReadsItem(items[0], more);
      Assoc(ItemText(items[0]), ItemsText(items[1..]), r);
      QuotedFails(items[1..], n - 1, r);
      OneMore(ItemText(items[0]) + more, n, ItemValue(items[0]), more);
    }
  }

  lemma PastTheEnd()
    ensures ReadChar("") == Past
  {
  }

  /** Every item is at its end in front of the following ones and `r`. */
  predicate ItemsEnd(items: seq<Item>, r: string) {
    items != [] ==> ItemOk(items[0], ItemsText(items[1..]) + r) && ItemsEnd(items[1..], r)
  }

  /** A character constant wants one to four characters and a quote; without an end the program reads
      on behind its buffer. */
  lemma BadQuotes(ws: string, items: seq<Item>, r: string)
    requires Spaces(ws) && |items| <= 4 && ItemsEnd(items, r)
    requires r == "" || (r[0] != '\'' && |items| == 4) || (r[0] == '\'' && items == [])
    ensures Evaluate(ws + ("'" + (ItemsText(items) + r))) ==
            Fail(if r == "" && |items| < 4 then Overrun else BadCharacter)
  {
    var s := "'" + (ItemsText(items) + r);
    assert s[1..] == ItemsText(items) + r;
    QuotedFails(items, 4, r);
    SkipSpaces(ws, s);
    FirstFails(ws + s, if r == "" && |items| < 4 then Overrun else BadCharacter);
  }
}
