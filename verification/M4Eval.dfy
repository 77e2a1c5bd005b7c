/** m4's expression evaluator (m4/expr.c) as functions on the text that is left. */
module M4Eval {

  /** `Undefined`: division by zero, or a shift by a count outside 0..31. `Overrun`: the text is
      read past its end, in a character constant that is not closed. */
  datatype Error = BadQuery | BadFactor | BadConstant | BadCharacter | IllFormed | Overrun | Undefined

  datatype Value = Val(v: int) | Fail(error: Error)

  /** A value and the text that is left, or an error (`experr` jumps out of the evaluator). */
  datatype Parsed = Ok(v: int, rest: string) | Err(error: Error)

  const EOS: char := '\0'

  // ----- Machine arithmetic.

  const WORD: int := 0x1_0000_0000

  /** An int of 32 bits; overflow wraps around. */
  function Word(x: int): (w: int)
    ensures -WORD / 2 <= w < WORD / 2 && (x - w) % WORD == 0
  {
    (x + WORD / 2) % WORD - WORD / 2
  }

  /** Division rounds towards zero. */
  function Quotient(a: int, b: int): int
    requires b != 0
  {
    if a >= 0 then a / b else -((-a) / b)
  }

  function Power2(n: nat): nat {
    if n == 0 then 1 else 2 * Power2(n - 1)
  }

  lemma Power2Positive(n: nat)
    ensures Power2(n) > 0
  {
  }

  function Truth(b: bool): int {
    if b then 1 else 0
  }

  datatype Op =
    | LOr(double: bool) | LAnd(double: bool)
    | Eq(double: bool) | Ne | Lt | Le | Gt | Ge
    | Shl | Shr | Add | Sub | Mul | Div | Mod

  function Apply(op: Op, a: int, b: int): Value {
    match op
    case LOr(_) => Val(Truth(a != 0 || b != 0))
    case LAnd(_) => Val(Truth(a != 0 && b != 0))
    case Eq(_) => Val(Truth(a == b))
    case Ne => Val(Truth(a != b))
    case Lt => Val(Truth(a < b))
    case Le => Val(Truth(a <= b))
    case Gt => Val(Truth(a > b))
    case Ge => Val(Truth(a >= b))
    case Shl => if 0 <= b < 32 then Val(Word(a * Power2(b))) else Fail(Undefined)
    case Shr => if 0 <= b < 32 then Power2Positive(b); Val(Word(a / Power2(b))) else Fail(Undefined)
    case Add => Val(Word(a + b))
    case Sub => Val(Word(a - b))
    case Mul => Val(Word(a * b))
    case Div => if b == 0 then Fail(Undefined) else Val(Word(Quotient(a, b)))
    case Mod => if b == 0 then Fail(Undefined) else Val(Word(a - b * Quotient(a, b)))
  }

  /** Repeated multiplication; 1 for exponents that are not positive. */
  function Power(base: int, n: int): int
    decreases n
  {
    if n <= 0 then 1 else Word(Power(base, n - 1) * base)
  }

  function Negate(c: char, v: int): int {
    if c == '-' then Word(-v) else if c == '~' then -v - 1 else v
  }

  // ----- Characters.

  predicate White(c: char) {
    EOS < c <= ' '
  }

  function Skip(s: string): (t: string)
    ensures |t| <= |s|
    ensures t != "" ==> !White(t[0])
  {
    if s != "" && White(s[0]) then Skip(s[1..]) else s
  }

  predicate IsDigit(c: char, base: int) {
    '0' <= c <= if base == 8 then '7' else '9'
  }

  /** Digits of a base: the value so far extended, and what is left. */
  function Digits(s: string, base: int, v: int): (r: (int, string))
    ensures |r.1| <= |s|
    ensures s != "" && IsDigit(s[0], base) ==> |r.1| < |s|
  {
    if s != "" && IsDigit(s[0], base) then Digits(s[1..], base, Word(Word(v * base) + (s[0] as int - '0' as int)))
    else (v, s)
  }

  // ----- Precedence levels: 0 query, 1 lor, 2 land, 3 not, 4 eqrel, 5 shift, 6 primary, 7 term,
  // 8 exp, 9 unary. At the levels 1, 2 and 4 to 7 operators associate to the left.

  predicate IsBinary(k: nat) {
    k in {1, 2, 4, 5, 6, 7}
  }

  predicate Begins(s: string, c: char) {
    s != "" && s[0] == c
  }

  predicate Begins2(s: string, c: char, d: char) {
    |s| > 1 && s[0] == c && s[1] == d
  }

  datatype Read = Read(op: Op, len: nat) | NoOp

  /** The operator of level `k` at the head of `s`, white space being skipped already. */
  function ReadOp(k: nat, s: string): (r: Read)
    ensures r.Read? ==> 0 < r.len <= |s|
  {
    if k == 1 && Begins(s, '|') then if Begins2(s, '|', '|') then Read(LOr(true), 2) else Read(LOr(false), 1)
    else if k == 2 && Begins(s, '&') then if Begins2(s, '&', '&') then Read(LAnd(true), 2) else Read(LAnd(false), 1)
    else if k == 4 && Begins(s, '=') then if Begins2(s, '=', '=') then Read(Eq(true), 2) else Read(Eq(false), 1)
    else if k == 4 && Begins2(s, '!', '=') then Read(Ne, 2)
    else if k == 4 && Begins(s, '<') then if Begins2(s, '<', '=') then Read(Le, 2) else Read(Lt, 1)
    else if k == 4 && Begins(s, '>') then if Begins2(s, '>', '=') then Read(Ge, 2) else Read(Gt, 1)
    else if k == 5 && Begins2(s, '<', '<') then Read(Shl, 2)
    else if k == 5 && Begins2(s, '>', '>') then Read(Shr, 2)
    else if k == 6 && Begins(s, '+') then Read(Add, 1)
    else if k == 6 && Begins(s, '-') then Read(Sub, 1)
    else if k == 7 && Begins(s, '*') then Read(Mul, 1)
    else if k == 7 && Begins(s, '/') then Read(Div, 1)
    else if k == 7 && Begins(s, '%') then Read(Mod, 1)
    else NoOp
  }

  /** How long a power operator at the head of `s` is, 0 if there is none. */
  function ReadPower(s: string): (n: nat)
    ensures n <= |s|
  {
    if Begins2(s, '*', '*') then 2 else if Begins(s, '^') then 1 else 0
  }

  /** The nonterminal of level `k`. */
  function Parse(k: nat, s: string): (r: Parsed)
    requires k <= 9
    ensures r.Ok? ==> |r.rest| < |s|
    decreases |s|, 1, if k == 0 then 10 else 9 - k
  {
    if IsBinary(k) then
      match Parse(k + 1, s)
      case Err(e) => Err(e)
      case Ok(v, rest) => Tail(k, v, rest)
    else if k == 0 then Query(s)
    else if k == 3 then
      var t := Skip(s);
      if Begins(t, '!') && !Begins2(t, '!', '=') then
        match Parse(3, t[1..])
        case Err(e) => Err(e)
        case Ok(v, rest) => Ok(Truth(v == 0), rest)
      else Parse(4, t)
    else if k == 8 then
      match Parse(9, s)
      case Err(e) => Err(e)
      case Ok(v, rest) =>
        var t := Skip(rest);
        var n := ReadPower(t);
        if n == 0 then Ok(v, t)
        else
          match Parse(8, t[n..])
          case Err(e) => Err(e)
          case Ok(w, rest') => Ok(Power(v, w), rest')
    else
      var t := Skip(s);
      if Begins(t, '+') || Begins(t, '-') || Begins(t, '~') then
        match Parse(9, t[1..])
        case Err(e) => Err(e)
        case Ok(v, rest) => Ok(Negate(t[0], v), rest)
      else Factor(t)
  }

  function Query(s: string): (r: Parsed)
    ensures r.Ok? ==> |r.rest| < |s|
    decreases |s|, 1, 9
  {
    match Parse(1, s)
    case Err(e) => Err(e)
    case Ok(b, rest) =>
      var t := Skip(rest);
      if !Begins(t, '?') then Ok(b, t)
      else
        match Parse(0, t[1..])
        case Err(e) => Err(e)
        case Ok(v, rest1) =>
          var t1 := Skip(rest1);
          if !Begins(t1, ':') then Err(BadQuery)
          else
            match Parse(0, t1[1..])
            case Err(e) => Err(e)
            case Ok(w, rest2) => Ok(if b != 0 then v else w, rest2)
  }

  /** The loop of a binary level, with the value `v` so far. */
  function Tail(k: nat, v: int, s: string): (r: Parsed)
    requires IsBinary(k)
    ensures r.Ok? ==> |r.rest| <= |s|
    decreases |s|, 0
  {
    var t := Skip(s);
    var read := ReadOp(k, t);
    if read.NoOp? then Ok(v, t)
    else
      match Parse(k + 1, t[read.len..])
      case Err(e) => Err(e)
      case Ok(w, rest) =>
        match Apply(read.op, v, w)
        case Fail(e) => Err(e)
        case Val(x) => Tail(k, x, rest)
  }

  // ----- Character constants.

  /** A character of a constant, of 8 bits; `Past` when the end of the text is taken for one. */
  datatype Single = One(v: int, rest: string) | Past

  function Escape(c: char): int {
    match c
    case 'n' => 10
    case 'r' => 13
    case 't' => 9
    case 'b' => 8
    case 'f' => 12
    case _ => c as int
  }

  /** A number behind a backslash begins with an octal digit, but is octal only behind a 0. */
  function ReadChar(s: string): (r: Single)
    ensures r.One? ==> |r.rest| < |s|
  {
    if s == "" then Past
    else if s[0] != '\\' then One(s[0] as int, s[1..])
    else if |s| == 1 then Past
    else if IsDigit(s[1], 8) then
      var (v, rest) := Digits(s[1..], if s[1] == '0' then 8 else 10, 0);
      One(v % 256, rest)
    else One(Escape(s[1]), s[2..])
  }

  /** Up to `n` more characters and the closing quote; 4 is the size of an int. */
  function Quoted(s: string, n: nat): (r: Parsed)
    ensures r.Ok? ==> |r.rest| < |s|
    decreases n
  {
    if n > 0 && !Begins(s, '\'') then
      match ReadChar(s)
      case Past => Err(Overrun)
      case One(c, rest) =>
        match Quoted(rest, n - 1)
        case Err(e) => Err(e)
        case Ok(v, rest') => Ok(Word(Word(v * 256) + c), rest')
    else if n == 4 || !Begins(s, '\'') then Err(BadCharacter)
    else Ok(0, s[1..])
  }

  function Factor(s: string): (r: Parsed)
    ensures r.Ok? ==> |r.rest| < |s|
    decreases |s|, 0
  {
    if Begins(s, '(') then
      match Parse(0, s[1..])
      case Err(e) => Err(e)
      case Ok(v, rest) =>
        var t := Skip(rest);
        if Begins(t, ')') then Ok(v, t[1..]) else Err(BadFactor)
    else if Begins(s, '\'') then Quoted(s[1..], 4)
    else if s == "" || !IsDigit(s[0], 10) then Err(BadConstant)
    else
      var (v, rest) := Digits(s, if s[0] == '0' then 8 else 10, 0);
      Ok(v, rest)
  }

  /** `expr`: a whole expression; on an error the result is 0. */
  function Evaluate(s: string): Value {
    match Parse(0, s)
    case Err(e) => Fail(e)
    case Ok(v, rest) => if Skip(rest) == "" then Val(v) else Fail(IllFormed)
  }
}
