/** The values of m4's expressions in terms of the integers: what each operator, number and character
    constant stands for, as relations between its operands and its result. */
module M4Values {
  import opened M4Eval
  import opened M4Chars
  import opened M4Grammar
  import opened M4Accepts

  predicate IsInt(x: int) {
    -0x8000_0000 <= x <= 0x7fff_ffff
  }

  /** Equal but for overflow. */
  predicate Same(x: int, y: int) {
    (x - y) % 0x1_0000_0000 == 0
  }

  function Product(s: seq<int>): int {
    if s == [] then 1 else s[0] * Product(s[1..])
  }

  /** As many factors as the exponent says; none if it is negative. */
  function Copies(b: int, n: int): (s: seq<int>)
    ensures |s| == (if n < 0 then 0 else n) && forall i :: 0 <= i < |s| ==> s[i] == b
    decreases n
  {
    if n <= 0 then [] else [b] + Copies(b, n - 1)
  }

  /** `v` divided by `w` is `q`, with the rest `r`, which is 0 or has the sign of `v`. */
  predicate Divided(v: int, w: int, q: int, r: int) {
    && v == q * w + r
    && (if r < 0 then -r else r) < (if w < 0 then -w else w)
    && (r < 0 ==> v < 0) && (r > 0 ==> v > 0)
  }

  /** `x` is `v` divided by `p` and rounded down. */
  predicate Covered(v: int, p: int, x: int) {
    x * p <= v < x * p + p
  }

  predicate Tells(x: int, b: bool) {
    x == if b then 1 else 0
  }

  /** The result of an operator, given by its spelling. */
  ghost predicate Result(t: string, v: int, w: int, x: int) {
    if t == "|" || t == "||" then Tells(x, v != 0 || w != 0)
    else if t == "&" || t == "&&" then Tells(x, v != 0 && w != 0)
    else if t == "=" || t == "==" then Tells(x, v == w)
    else if t == "!=" then Tells(x, v != w)
    else if t == "<" then Tells(x, v < w)
    else if t == "<=" then Tells(x, v <= w)
    else if t == ">" then Tells(x, v > w)
    else if t == ">=" then Tells(x, v >= w)
    else if t == "<<" then 0 <= w < 32 && Same(x, v * Product(Copies(2, w)))
    else if t == ">>" then 0 <= w < 32 && Covered(v, Product(Copies(2, w)), x)
    else if t == "+" then Same(x, v + w)
    else if t == "-" then Same(x, v - w)
    else if t == "*" then Same(x, v * w)
    else if t == "/" then exists q, r :: Divided(v, w, q, r) && Same(x, q)
    else if t == "%" then exists q :: Divided(v, w, q, x)
    else (t == "^" || t == "**") && Same(x, Product(Copies(v, w)))
  }

  predicate Signed(t: char, v: int, x: int) {
    if t == '-' then Same(x + v, 0)
    else if t == '~' then Same(x + v, -1)
    else t == '+' && x == v
  }

  /** Digits weigh more the further to the left they are. */
  function Numeral(digits: string, base: int): int {
    if digits == "" then 0
    else (digits[0] as int - '0' as int) * Product(Copies(base, |digits| - 1)) + Numeral(digits[1..], base)
  }

  /** A number is octal if it begins with a 0. */
  function Number(digits: string): int {
    Numeral(digits, if digits != "" && digits[0] == '0' then 8 else 10)
  }

  /** The byte that is written as an item of a character constant. */
  predicate IsByte(item: Item, x: int) {
    match item
    case Plain(c) => x == c as int
    case Escaped(c) =>
      x == (if c == 'n' then '\n' else if c == 'r' then '\r' else if c == 't' then '\t'
            else if c == 'b' then 8 as char else if c == 'f' then 12 as char else c) as int
    case Code(digits) => 0 <= x < 256 && (x - Number(digits)) % 256 == 0
  }

  /** The first character is the lowest byte. */
  ghost predicate AreBytes(items: seq<Item>, x: int) {
    if items == [] then x == 0
    else exists b, y :: IsByte(items[0], b) && AreBytes(items[1..], y) && x == b + 256 * y
  }

  /** `x` is the value of `e`; an expression in which a shift or a division is not defined has none. */
  ghost predicate Denotes(e: Expr, x: int) {
    && IsInt(x)
    && match e
       case Num(_, digits) => Same(x, Number(digits))
       case Chars(_, items) => exists y :: AreBytes(items, y) && Same(x, y)
       case Paren(_, inner, _) => Denotes(inner, x)
       case Sign(_, sign, arg) => exists v :: Denotes(arg, v) && Signed(sign, v, x)
       case Raise(base, _, caret, exponent) =>
         exists v, w :: Denotes(base, v) && Denotes(exponent, w) && Result(if caret then "^" else "**", v, w, x)
       case Not(_, arg) => exists v :: Denotes(arg, v) && Tells(x, v == 0)
       case Bin(l, _, op, r) => exists v, w :: Denotes(l, v) && Denotes(r, w) && Result(OpText(op), v, w, x)
       case Cond(test, _, yes, _, no) =>
         exists b, v, w :: Denotes(test, b) && Denotes(yes, v) && Denotes(no, w) && x == if b != 0 then v else w
  }

  // ----- Arithmetic.

  lemma SameInt(x: int, y: int, z: int)
    requires IsInt(x) && IsInt(y) && Same(x, z) && Same(y, z)
    ensures x == y
  {
  }

  lemma WordIs(x: int)
    ensures IsInt(Word(x)) && Same(Word(x), x)
  {
  }

  lemma MulSame(x: int, y: int, z: int)
    requires Same(x, y)
    ensures Same(x * z, y * z)
  {
    var k := (x - y) / 0x1_0000_0000;
    assert x - y == k * 0x1_0000_0000;
    assert x * z - y * z == (x - y) * z == (k * z) * 0x1_0000_0000;
    assert ((k * z) * 0x1_0000_0000) % 0x1_0000_0000 == 0;
  }

  lemma {:induction false} Power2Is(n: nat)
    ensures Product(Copies(2, n)) == Power2(n)
  {
    if n > 0 { CopiesMore(2, n); Power2Is(n - 1); }
  }

  lemma CopiesMore(b: int, n: int)
    requires n > 0
    ensures Product(Copies(b, n)) == b * Product(Copies(b, n - 1))
  {
    assert Copies(b, n)[1..] == Copies(b, n - 1);
  }

  lemma {:induction false} PowerIs(b: int, n: int)
    ensures Same(Power(b, n), Product(Copies(b, n))) && IsInt(Power(b, n))
    decreases n
  {
    if n > 0 {
      CopiesMore(b, n);
      PowerIs(b, n - 1);
      NextPower(Power(b, n - 1), Product(Copies(b, n - 1)), b);
    }
  }

  lemma NextPower(x: int, y: int, b: int)
    requires Same(x, y)
    ensures Same(Word(x * b), b * y) && IsInt(Word(x * b))
  {
    MulSame(x, y, b);
    WordIs(x * b);
    assert y * b == b * y;
  }

  lemma Apart(d: int, w: int)
    requires d != 0
    ensures (if w < 0 then -w else w) <= (if d * w < 0 then -(d * w) else d * w)
  {
    if w == 0 { return; }
    if d > 0 { Grows(d, w); } else { Grows(-d, w); assert (-d) * w == -(d * w); }
  }

  lemma Grows(d: int, w: int)
    requires d > 0
    ensures w >= 0 ==> d * w >= w
    ensures w <= 0 ==> d * w <= w
  {
    assert d * w == (d - 1) * w + w;
    if w >= 0 { assert (d - 1) * w >= 0; }
    if w <= 0 { assert (d - 1) * w <= 0; }
  }

  lemma DividedUnique(v: int, w: int, q: int, r: int, q': int, r': int)
    requires Divided(v, w, q, r) && Divided(v, w, q', r')
    ensures q == q' && r == r'
  {
    var d := q - q';
    assert d * w == q * w - q' * w;
    if d != 0 { Apart(d, w); }
  }

  /** Division that rounds down leaves a rest of its own. */
  lemma Euclid(v: int, w: int) returns (q: int, r: int)
    requires w != 0
    ensures q == v / w && r == v % w && v == w * q + r && 0 <= r < (if w < 0 then -w else w)
  {
    q, r := v / w, v % w;
  }

  lemma IsDivided(v: int, w: int, q: int, r: int)
    requires v == w * q + r && (if r < 0 then -r else r) < (if w < 0 then -w else w)
    requires (r < 0 ==> v < 0) && (r > 0 ==> v > 0)
    ensures Divided(v, w, q, v - w * q)
  {
    assert w * q == q * w;
  }

  lemma Opposite(w: int, q: int)
    ensures w * (-q) == -(w * q)
  {
  }

  lemma PositiveRest(w: int, q: int, r: int)
    requires 0 <= r < (if w < 0 then -w else w) && w * q + r >= 0
    ensures r > 0 ==> w * q + r > 0
  {
    assert q * w == w * q;
    if q != 0 { Apart(q, w); }
  }

  lemma QuotientDivides(v: int, w: int)
    requires w != 0
    ensures Divided(v, w, Quotient(v, w), v - w * Quotient(v, w))
  {
    hide Divided;
    var q, r := Euclid(if v >= 0 then v else -v, w);
    PositiveRest(w, q, r);
    if v >= 0 {
      IsDivided(v, w, q, r);
    } else {
      Opposite(w, q);
      IsDivided(v, w, -q, -r);
    }
  }

  // ----- Operators.

  lemma ShiftIs(op: Op, v: int, w: int)
    requires op in {Shl, Shr} && IsInt(v) && 0 <= w < 32
    ensures Apply(op, v, w).Val? && IsInt(Apply(op, v, w).v) && Result(OpText(op), v, w, Apply(op, v, w).v)
  {
    var p := Power2(w);
    Power2Is(w);
    Power2Positive(w);
    if op == Shl { WordIs(v * p); } else { HalvedIs(v, p); WordIs(v / p); }
  }

  lemma HalvedIs(v: int, p: int)
    requires p > 0 && IsInt(v)
    ensures Covered(v, p, v / p) && IsInt(v / p)
  {
    var x := v / p;
    assert v == p * x + v % p;
    assert p * x == x * p;
    if x > 0 { Grows(p, x); }
    if x < 0 { Grows(p, x + 1); assert p * (x + 1) == p * x + p; }
  }

  lemma DivisionIs(op: Op, v: int, w: int)
    requires op in {Div, Mod} && IsInt(v) && IsInt(w) && w != 0
    ensures Apply(op, v, w).Val? && IsInt(Apply(op, v, w).v) && Result(OpText(op), v, w, Apply(op, v, w).v)
  {
    var q := Quotient(v, w);
    var r := v - w * q;
    QuotientDivides(v, w);
    WordIs(q);
    WordIs(r);
    if op == Mod { SameInt(Word(r), r, r); }
  }

  /** Where an operator has a value, it is its result; elsewhere it has none. */
  lemma ApplyIs(op: Op, v: int, w: int)
    requires IsInt(v) && IsInt(w)
    ensures match Apply(op, v, w)
            case Val(x) => IsInt(x) && Result(OpText(op), v, w, x)
            case Fail(_) => forall x :: !Result(OpText(op), v, w, x)
  {
    match op
    case Shl => if 0 <= w < 32 { ShiftIs(op, v, w); }
    case Shr => if 0 <= w < 32 { ShiftIs(op, v, w); }
    case Div => if w != 0 { DivisionIs(op, v, w); }
    case Mod => if w != 0 { DivisionIs(op, v, w); }
    case Add => WordIs(v + w);
    case Sub => WordIs(v - w);
    case Mul => WordIs(v * w);
    case _ =>
  }

  lemma CoveredUnique(v: int, p: int, x: int, y: int)
    requires Covered(v, p, x) && Covered(v, p, y)
    ensures x == y
  {
    var d := x - y;
    assert d * p == x * p - y * p;
    if d != 0 { Apart(d, p); }
  }

  lemma QuotientUnique(v: int, w: int, x: int, y: int)
    requires IsInt(x) && IsInt(y) && Result("/", v, w, x) && Result("/", v, w, y)
    ensures x == y
  {
    var q, r :| Divided(v, w, q, r) && Same(x, q);
    var q', r' :| Divided(v, w, q', r') && Same(y, q');
    DividedUnique(v, w, q, r, q', r');
    SameInt(x, y, q);
  }

  lemma RestUnique(v: int, w: int, x: int, y: int)
    requires Result("%", v, w, x) && Result("%", v, w, y)
    ensures x == y
  {
    var q :| Divided(v, w, q, x);
    var q' :| Divided(v, w, q', y);
    DividedUnique(v, w, q, x, q', y);
  }

  lemma ResultUnique(t: string, v: int, w: int, x: int, y: int)
    requires IsInt(x) && IsInt(y) && Result(t, v, w, x) && Result(t, v, w, y)
    ensures x == y
  {
    hide Product, Copies, Divided, Covered, Same, IsInt;
    if t == "<<" { SameInt(x, y, v * Product(Copies(2, w))); }
    else if t == ">>" { CoveredUnique(v, Product(Copies(2, w)), x, y); }
    else if t == "/" { QuotientUnique(v, w, x, y); }
    else if t == "%" { RestUnique(v, w, x, y); }
    else if t == "+" { SameInt(x, y, v + w); }
    else if t == "-" { SameInt(x, y, v - w); }
    else if t == "*" { SameInt(x, y, v * w); }
    else if t == "^" || t == "**" { SameInt(x, y, Product(Copies(v, w))); }
  }

  lemma SignedIs(t: char, v: int)
    requires IsInt(v) && t in {'+', '-', '~'}
    ensures IsInt(Negate(t, v)) && Signed(t, v, Negate(t, v))
    ensures forall x :: IsInt(x) && Signed(t, v, x) ==> x == Negate(t, v)
  {
    WordIs(-v);
  }

  // ----- Numbers and character constants.

  lemma Regroup(v: int, base: int, d: int, p: int)
    ensures (v * base + d) * p == v * (base * p) + d * p
  {
    assert (v * base) * p == v * (base * p);
  }

  lemma SameAdd(x: int, y: int, d: int)
    requires Same(x, y)
    ensures Same(x + d, y + d)
  {
  }

  lemma DigitStep(v: int, base: int, d: int, p: int, n: int)
    ensures Same(Word(Word(v * base) + d) * p + n, v * (base * p) + (d * p + n))
  {
    hide Same, Word;
    var x := Word(v * base) + d;
    var y := v * base + d;
    WordIs(v * base);
    SameAdd(Word(v * base), v * base, d);
    WordIs(x);
    SameTrans(Word(x), x, y);
    MulSame(Word(x), y, p);
    SameAdd(Word(x) * p, y * p, n);
    Regroup(v, base, d, p);
  }

  /** Digits read from left to right. */
  lemma {:induction false} DigitsAre(digits: string, base: int, v: int)
    requires IsInt(v) && AllDigits(digits, base)
    ensures IsInt(Digits(digits, base, v).0)
    ensures Same(Digits(digits, base, v).0, v * Product(Copies(base, |digits|)) + Numeral(digits, base))
  {
    hide Same, IsInt, Word, Product, Copies;
    if digits == "" {
      NoDigits(v, base);
    } else {
      var n, d := |digits|, digits[0] as int - '0' as int;
      var p, more := Product(Copies(base, n - 1)), Numeral(digits[1..], base);
      var u := Word(Word(v * base) + d);
      CopiesMore(base, n);
      WordIs(Word(v * base) + d);
      DigitStep(v, base, d, p, more);
      DigitsAre(digits[1..], base, u);
      SameTrans(Digits(digits, base, v).0, u * p + more, v * (base * p) + (d * p + more));
    }
  }

  lemma NoDigits(v: int, base: int)
    ensures Same(v, v * Product(Copies(base, 0)) + 0)
  {
    assert Copies(base, 0) == [];
  }

  lemma SameTrans(x: int, y: int, z: int)
    requires Same(x, y) && Same(y, z)
    ensures Same(x, z)
  {
  }

  lemma NumberIs(digits: string)
    requires AllDigits(digits, Base(digits))
    ensures var x := Digits(digits, Base(digits), 0).0; IsInt(x) && Same(x, Number(digits))
  {
    DigitsAre(digits, Base(digits), 0);
  }

  lemma LowByte(x: int, y: int)
    requires Same(x, y)
    ensures 0 <= x % 256 < 256 && (x % 256 - y) % 256 == 0
  {
  }

  lemma ByteIs(item: Item, next: string)
    requires ItemOk(item, next)
    ensures IsByte(item, ItemValue(item)) && forall x :: IsByte(item, x) ==> x == ItemValue(item)
  {
    hide Number, Digits, Same;
    if item.Code? {
      NumberIs(item.digits);
      LowByte(Digits(item.digits, Base(item.digits), 0).0, Number(item.digits));
    }
  }

  lemma ByteStep(v: int, y: int, b: int)
    requires Same(v, y)
    ensures Same(Word(Word(v * 256) + b), b + 256 * y) && IsInt(Word(Word(v * 256) + b))
  {
    WordIs(v * 256);
    WordIs(Word(v * 256) + b);
  }

  lemma BytesNext(items: seq<Item>, b: int, more: int) returns (y: int)
    requires items != [] && IsByte(items[0], b) && forall x :: IsByte(items[0], x) ==> x == b
    requires AreBytes(items[1..], more) && forall z :: AreBytes(items[1..], z) ==> z == more
    ensures y == b + 256 * more && AreBytes(items, y) && forall z :: AreBytes(items, z) ==> z == y
  {
    hide IsByte;
    y := b + 256 * more;
  }

  lemma {:induction false} BytesAre(items: seq<Item>) returns (y: int)
    requires ItemsOk(items)
    ensures IsInt(ItemsValue(items)) && AreBytes(items, y) && Same(ItemsValue(items), y)
    ensures forall z :: AreBytes(items, z) ==> z == y
  {
    if items == [] {
      y := 0;
    } else {
      hide Same, IsInt, Word, IsByte, AreBytes, ItemValue, ItemsText, ItemOk;
      ByteIs(items[0], ItemsText(items[1..]) + "'");
      var more := BytesAre(items[1..]);
      ByteStep(ItemsValue(items[1..]), more, ItemValue(items[0]));
      y := BytesNext(items, ItemValue(items[0]), more);
    }
  }

  // ----- Expressions.

  /** The characters of the grammar: white space, digits of the two bases, and signs. */
  lemma CharactersAre(ws: string, c: char)
    ensures Spaces(ws) <==> forall i :: 0 <= i < |ws| ==> '\U{01}' <= ws[i] <= ' '
    ensures IsDigit(c, 8) <==> c in "01234567"
    ensures IsDigit(c, 10) <==> c in "0123456789"
  {
  }

  lemma {:induction false} MeaningIs(e: Expr)
    requires Grammar(e)
    ensures forall x :: Denotes(e, x) <==> Meaning(e) == Val(x)
  {
    match e
    case Num(_, digits) => NumberIs(digits); forall x | Denotes(e, x) ensures Meaning(e) == Val(x) {
      SameInt(x, Meaning(e).v, Number(digits));
    }
    case Chars(_, items) => var y := BytesAre(items); forall x | Denotes(e, x) ensures Meaning(e) == Val(x) {
      SameInt(x, Meaning(e).v, y);
    }
    case Paren(_, inner, _) => MeaningIs(inner);
    case Sign(_, sign, arg) =>
      MeaningIs(arg);
      if Meaning(arg).Val? { assert Denotes(arg, Meaning(arg).v); SignedIs(sign, Meaning(arg).v); }
    case Raise(base, _, caret, exponent) => RaiseIs(e);
    case Not(_, arg) => MeaningIs(arg);
    case Bin(l, _, op, r) => BinIs(e);
    case Cond(test, _, yes, _, no) => MeaningIs(test); MeaningIs(yes); MeaningIs(no);
  }

  lemma RaisedIs(t: string, v: int, w: int)
    requires t == "^" || t == "**"
    ensures Result(t, v, w, Power(v, w))
  {
    PowerIs(v, w);
  }

  lemma {:induction false} RaiseIs(e: Expr)
    requires Grammar(e) && e.Raise?
    ensures forall x :: Denotes(e, x) <==> Meaning(e) == Val(x)
    decreases e, 0
  {
    hide Product, Copies, Power, Same, IsInt;
    MeaningIs(e.base);
    MeaningIs(e.exponent);
    var b, w := Meaning(e.base), Meaning(e.exponent);
    if b.Val? && w.Val? {
      assert Denotes(e.base, b.v) && Denotes(e.exponent, w.v);
      var t := if e.caret then "^" else "**";
      PowerIs(b.v, w.v);
      RaisedIs(t, b.v, w.v);
      forall x | IsInt(x) && Result(t, b.v, w.v, x) ensures x == Power(b.v, w.v) {
        ResultUnique(t, b.v, w.v, x, Power(b.v, w.v));
      }
    }
  }

  lemma {:induction false} BinIs(e: Expr)
    requires Grammar(e) && e.Bin?
    ensures forall x :: Denotes(e, x) <==> Meaning(e) == Val(x)
    decreases e, 0
  {
    MeaningIs(e.left);
    MeaningIs(e.right);
    var b, w := Meaning(e.left), Meaning(e.right);
    if b.Val? && w.Val? {
      assert Denotes(e.left, b.v) && Denotes(e.right, w.v);
      var t := OpText(e.op);
      ApplyIs(e.op, b.v, w.v);
      if Apply(e.op, b.v, w.v).Val? {
        var y := Apply(e.op, b.v, w.v).v;
        forall x | IsInt(x) && Result(t, b.v, w.v, x) ensures x == y { ResultUnique(t, b.v, w.v, x, y); }
      }
    }
  }

  /** MAIN: `expr` returns the number that an expression denotes, and returns an error on a text
      exactly if it is not the text of an expression that denotes something. */
  lemma ExprDenotes(s: string, x: int)
    ensures Evaluate(s) == Val(x)
            <==> exists e, ws :: Grammar(e) && Spaces(ws) && s == Print(e) + ws && Denotes(e, x)
  {
    hide Evaluate, Grammar, Spaces, Print, Meaning, Denotes;
    ExprIff(s, x);
    if e, ws :| Grammar(e) && Spaces(ws) && s == Print(e) + ws && Meaning(e) == Val(x) { MeaningIs(e); }
    if e, ws :| Grammar(e) && Spaces(ws) && s == Print(e) + ws && Denotes(e, x) {
      MeaningIs(e);
      ExprIsMeaning(e, ws);
    }
  }
}
