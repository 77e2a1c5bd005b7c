/** The recursive-descent parser of awk/b.c. */
module RegexParse {
  import opened RegexTree
  import opened RegexLex

  type Parsed = Result<(Re, Cursor)>

  function Next(c: Cursor): Result<Cursor> {
    Lex(c.rest)
  }

  /** Tokens that go on with a concatenation; `^` is not one of them. */
  predicate Concatenates(tok: Token) {
    tok.TChar? || tok.TDot? || tok.TCcl? || tok.TNccl? || tok.TDollar? || tok.TOpen?
  }

  function Regexp(c: Cursor): (r: Parsed)
    ensures r.Ok? ==> Size(r.value.1) < Size(c)
    decreases Size(c), 3
  {
    var (np, c1) :- Primary(c);
    var (np', c2) :- Concat(np, c1);
    Alt(np', c2)
  }

  function Primary(c: Cursor): (r: Parsed)
    ensures r.Ok? ==> Size(r.value.1) < Size(c)
    decreases Size(c), 0
  {
    match c.tok
    case TChar(v) => ThenUnary(Atom(0, Char(v)), c)
    case TDot => ThenUnary(Atom(0, Dot), c)
    case TCcl(raw) => ThenUnary(Atom(0, Ccl(ClassMembers(raw))), c)
    case TNccl(raw) => ThenUnary(Atom(0, Nccl(ClassMembers(raw))), c)
    case THat => ThenUnary(Atom(0, Char(HAT)), c)
    case TDollar => ThenUnary(Atom(0, Char(NUL)), c)
    case TOpen =>
      var c1 :- Next(c);
      if c1.tok == TClose then ThenUnary(Atom(0, Ccl([])), c1)
      else
        var (np, c2) :- Regexp(c1);
        if c2.tok == TClose then ThenUnary(np, c2) else Err(SyntaxError)
    case _ => Err(IllegalPrimary)
  }

  /** Read over the current token, then the postfix operators. */
  function ThenUnary(np: Re, c: Cursor): (r: Parsed)
    requires c.tok != TEnd
    ensures r.Ok? ==> Size(r.value.1) < Size(c)
  {
    var c1 :- Next(c);
    Unary(np, c1)
  }

  function Unary(np: Re, c: Cursor): (r: Parsed)
    ensures r.Ok? ==> Size(r.value.1) <= Size(c)
    decreases Size(c)
  {
    match c.tok
    case TStar => var c1 :- Next(c); Unary(Star(np), c1)
    case TPlus => var c1 :- Next(c); Unary(Plus(np), c1)
    case TQuest => var c1 :- Next(c); Unary(Quest(np), c1)
    case _ => Ok((np, c))
  }

  function Concat(np: Re, c: Cursor): (r: Parsed)
    ensures r.Ok? ==> Size(r.value.1) <= Size(c)
    decreases Size(c), 1
  {
    if Concatenates(c.tok) then
      var (np', c1) :- Primary(c);
      Concat(Cat(np, np'), c1)
    else Ok((np, c))
  }

  function Alt(np: Re, c: Cursor): (r: Parsed)
    ensures r.Ok? ==> Size(r.value.1) <= Size(c)
    decreases Size(c), 2
  {
    if c.tok == TOr then
      var c1 :- Next(c);
      var (p, c2) :- Primary(c1);
      var (p', c3) :- Concat(p, c2);
      Alt(Or(np, p'), c3)
    else Ok((np, c))
  }

  function Reparse(s: seq<nat>): Result<Re> {
    var c :- Lex(s);
    if c.tok == TEnd then Err(EmptyRegex)
    else
      var (np, c1) :- Regexp(c);
      if c1.tok == TEnd then Ok(np) else Err(SyntaxError)
  }
}
