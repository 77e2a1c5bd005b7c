/** The converse: a text that m4's evaluator accepts is an expression of the grammar. */
module M4Accepts {
  import opened M4Eval
  import opened M4Chars
  import opened M4Grammar

  /** `e`, then `ws`, then `rest`: how a nonterminal of level `k` has read the text `s`. */
  ghost predicate Covers(k: nat, s: string, e: Expr, ws: string, v: int, rest: string) {
    && Grammar(e) && Rank(e) >= k && Spaces(ws)
    && Meaning(e) == Val(v) && s == Print(e) + (ws + rest)
  }

  lemma {:induction false} SkipSplits(s: string) returns (ws: string)
    ensures Spaces(ws) && s == ws + Skip(s)
  {
    if s != "" && White(s[0]) {
      var w := SkipSplits(s[1..]);
      ws := [s[0]] + w;
      Assoc([s[0]], w, Skip(s));
      assert s == [s[0]] + s[1..];
    } else {
      ws := "";
    }
  }

  lemma SpacesJoin(a: string, b: string)
    requires Spaces(a) && Spaces(b)
    ensures Spaces(a + b)
  {
  }

  lemma SkipCovers(k: nat, s: string, e: Expr, w: string, v: int, rest: string) returns (ws: string)
    requires Covers(k, s, e, w, v, rest)
    ensures Covers(k, s, e, ws, v, Skip(rest))
  {
    var wx := SkipSplits(rest);
    SpacesJoin(w, wx);
    Assoc(w, wx, Skip(rest));
    ws := w + wx;
  }

  lemma Head(t: string)
    requires t != ""
    ensures t == [t[0]] + t[1..]
  {
  }

  lemma PowerText(t: string)
    requires ReadPower(t) != 0
    ensures t == (if ReadPower(t) == 1 then "^" else "**") + t[ReadPower(t)..]
  {
    Head(t);
    if ReadPower(t) == 2 { assert t[..2] == "**"; }
  }

  lemma SignText(w: string, c: char, a: Expr, r: string)
    ensures Print(Sign(w, c, a)) + r == w + ([c] + (Print(a) + r))
  {
    Assoc(w, [c] + Print(a), r);
    Assoc([c], Print(a), r);
  }

  lemma NotText(w: string, a: Expr, r: string)
    ensures Print(Not(w, a)) + r == w + ("!" + (Print(a) + r))
  {
    Assoc(w, "!" + Print(a), r);
    Assoc("!", Print(a), r);
  }

  lemma ReadText(k: nat, t: string)
    requires ReadOp(k, t).Read?
    ensures var read := ReadOp(k, t);
            OpLevel(read.op) == k && read.len == |OpText(read.op)| && t == OpText(read.op) + t[read.len..]
  {
    assert Begins(t, t[0]);
    assert |t| > 1 ==> t[..2] == [t[0], t[1]];
    assert t[..1] == [t[0]];
    var read := ReadOp(k, t);
    assert t == t[..read.len] + t[read.len..];
  }

  lemma {:induction false} ParseCovers(k: nat, s: string) returns (e: Expr, ws: string)
    requires k <= 9 && Parse(k, s).Ok?
    ensures Covers(k, s, e, ws, Parse(k, s).v, Parse(k, s).rest)
    decreases |s|, 1, if k == 0 then 10 else 9 - k, 0
  {
    if IsBinary(k) {
      var p := Parse(k + 1, s);
      var l, w := ParseCovers(k + 1, s);
      e, ws := TailCovers(k, s, l, w, p.v, p.rest);
    } else if k == 0 {
      e, ws := QueryCovers(s);
    } else if k == 3 {
      e, ws := NotCovers(s);
    } else if k == 8 {
      e, ws := PowerCovers(s);
    } else {
      e, ws := UnaryCovers(s);
    }
  }

  lemma BinCovers(k: nat, s: string, l: Expr, ws: string, op: Op, r: Expr, wr: string, v: int, u: int, rest: string,
                  y: string)
    requires IsBinary(k) && OpLevel(op) == k && Apply(op, v, u).Val?
    requires Covers(k, s, l, ws, v, OpText(op) + y) && Covers(k + 1, y, r, wr, u, rest)
    ensures Covers(k, s, Bin(l, ws, op, r), wr, Apply(op, v, u).v, rest)
  {
    BinText(l, ws, op, r, wr + rest);
  }

  lemma {:induction false} TailCovers(k: nat, s: string, l: Expr, w: string, v: int, x: string)
    returns (e: Expr, ws: string)
    requires IsBinary(k) && Covers(k, s, l, w, v, x) && Tail(k, v, x).Ok?
    ensures Covers(k, s, e, ws, Tail(k, v, x).v, Tail(k, v, x).rest)
    decreases |x|, 0
  {
    var t := Skip(x);
    var wx := SkipCovers(k, s, l, w, v, x);
    var read := ReadOp(k, t);
    if read.NoOp? {
      e, ws := l, wx;
    } else {
      ReadText(k, t);
      var y := t[read.len..];
      var p := Parse(k + 1, y);
      var r, wr := ParseCovers(k + 1, y);
      BinCovers(k, s, l, wx, read.op, r, wr, v, p.v, p.rest, y);
      e, ws := TailCovers(k, s, Bin(l, wx, read.op, r), wr, Apply(read.op, v, p.v).v, p.rest);
    }
  }

  lemma {:induction false} NotCovers(s: string) returns (e: Expr, ws: string)
    requires Parse(3, s).Ok?
    ensures Covers(3, s, e, ws, Parse(3, s).v, Parse(3, s).rest)
    decreases |s|, 1, 5, 1
  {
    var t := Skip(s);
    var w := SkipSplits(s);
    if Begins(t, '!') && !Begins2(t, '!', '=') {
      var p := Parse(3, t[1..]);
      var a, wa := ParseCovers(3, t[1..]);
      e, ws := Not(w, a), wa;
      Head(t);
      NotText(w, a, wa + p.rest);
    } else {
      ParseSkips(4, s);
      e, ws := ParseCovers(4, s);
    }
  }

  lemma RaiseCovers(s: string, b: Expr, ws: string, caret: bool, x: Expr, wr: string, v: int, u: int, rest: string,
                    y: string)
    requires Covers(9, s, b, ws, v, (if caret then "^" else "**") + y) && Covers(8, y, x, wr, u, rest)
    ensures Covers(8, s, Raise(b, ws, caret, x), wr, Power(v, u), rest)
  {
    RaiseText(b, ws, caret, x, wr + rest);
  }

  lemma {:induction false} PowerCovers(s: string) returns (e: Expr, ws: string)
    requires Parse(8, s).Ok?
    ensures Covers(8, s, e, ws, Parse(8, s).v, Parse(8, s).rest)
    decreases |s|, 1, 0, 1
  {
    var p := Parse(9, s);
    var b, w := ParseCovers(9, s);
    var t := Skip(p.rest);
    w := SkipCovers(9, s, b, w, p.v, p.rest);
    var n := ReadPower(t);
    if n == 0 {
      e, ws := b, w;
    } else {
      var q := Parse(8, t[n..]);
      var x, wr := ParseCovers(8, t[n..]);
      e, ws := Raise(b, w, n == 1, x), wr;
      PowerText(t);
      RaiseCovers(s, b, w, n == 1, x, wr, p.v, q.v, q.rest, t[n..]);
    }
  }

  lemma {:induction false} UnaryCovers(s: string) returns (e: Expr, ws: string)
    requires Parse(9, s).Ok?
    ensures Covers(9, s, e, ws, Parse(9, s).v, Parse(9, s).rest)
    decreases |s|, 0, 1
  {
    var t := Skip(s);
    var w := SkipSplits(s);
    if Begins(t, '+') || Begins(t, '-') || Begins(t, '~') {
      var p := Parse(9, t[1..]);
      var a, wa := ParseCovers(9, t[1..]);
      e, ws := Sign(w, t[0], a), wa;
      Head(t);
      SignText(w, t[0], a, wa + p.rest);
    } else {
      e := FactorCovers(w, t);
      ws := "";
      assert ws + Factor(t).rest == Factor(t).rest;
    }
  }

  lemma {:induction false} FactorCovers(w: string, t: string) returns (e: Expr)
    requires Spaces(w) && Factor(t).Ok?
    ensures Grammar(e) && Rank(e) == 9 && Meaning(e) == Val(Factor(t).v) && w + t == Print(e) + Factor(t).rest
    decreases |t|, 0, 0
  {
    if Begins(t, '(') {
      var p := Parse(0, t[1..]);
      var i, wi := ParseCovers(0, t[1..]);
      var u := Skip(p.rest);
      var wx := SkipSplits(p.rest);
      SpacesJoin(wi, wx);
      e := Paren(w, i, wi + wx);
      Head(t);
      Head(u);
      ParenText(w, i, wi, wx, u[1..]);
    } else if Begins(t, '\'') {
      var items := QuotedSplit(t[1..], 4);
      e := Chars(w, items);
      Head(t);
      CharsText(w, items, Factor(t).rest);
    } else {
      var base := if t[0] == '0' then 8 else 10;
      var ds := DigitsSplit(t, base, 0);
      e := Num(w, ds);
      Assoc(w, ds, Factor(t).rest);
    }
  }

  lemma ParenText(w: string, i: Expr, wi: string, wx: string, r: string)
    ensures Print(Paren(w, i, wi + wx)) + r == w + ("(" + (Print(i) + (wi + (wx + (")" + r)))))
  {
    var z := (wi + wx) + ")";
    Assoc(w, "(" + (Print(i) + z), r);
    Assoc("(", Print(i) + z, r);
    Assoc(Print(i), z, r);
    Assoc(wi + wx, ")", r);
    Assoc(wi, wx, ")" + r);
  }

  lemma {:induction false} QueryCovers(s: string) returns (e: Expr, ws: string)
    requires Query(s).Ok?
    ensures Covers(0, s, e, ws, Query(s).v, Query(s).rest)
    decreases |s|, 1, 9, 1
  {
    var p := Parse(1, s);
    var b, w := ParseCovers(1, s);
    var t := Skip(p.rest);
    w := SkipCovers(1, s, b, w, p.v, p.rest);
    if !Begins(t, '?') {
      e, ws := b, w;
    } else {
      Head(t);
      var q := Parse(0, t[1..]);
      var yes, wy := ParseCovers(0, t[1..]);
      var t1 := Skip(q.rest);
      wy := SkipCovers(0, t[1..], yes, wy, q.v, q.rest);
      Head(t1);
      var z := Parse(0, t1[1..]);
      var no, wn := ParseCovers(0, t1[1..]);
      e, ws := Expr.Cond(b, w, yes, wy, no), wn;
      CondText(e, wn + z.rest);
    }
  }

  /** MAIN: `expr` returns a value without an error exactly for the texts of the expressions of
      the grammar whose shifts and divisions are defined, and the value is theirs. */
  lemma ExprIff(s: string, v: int)
    ensures Evaluate(s) == Val(v)
            <==> exists e, ws :: Grammar(e) && Spaces(ws) && s == Print(e) + ws && Meaning(e) == Val(v)
  {
    if Evaluate(s) == Val(v) {
      var e, w := ParseCovers(0, s);
      var rest := Parse(0, s).rest;
      var w' := SkipSplits(rest);
      assert w' + "" == w';
      SpacesJoin(w, w');
      assert s == Print(e) + (w + w');
    }
    forall e, ws | Grammar(e) && Spaces(ws) && s == Print(e) + ws && Meaning(e) == Val(v)
      ensures Evaluate(s) == Val(v)
    {
      ExprIsMeaning(e, ws);
    }
  }
}
