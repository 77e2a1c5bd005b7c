/** From the text of a regular expression to its automaton: the lexer's and parser's
    procedures, which advance a cursor in place, and `makedfa`. */
module RegexFront {
  import opened RegexTree
  import opened RegexAutomaton
  import opened RegexLex
  import opened RegexParse
  import opened RegexPrint
  import opened RegexRun
  import opened RegexMatch
  import opened RegexScan
  import opened RegexMachine
  import opened RegexBuild

  // ----- Characters.

  /** Up to two hexadecimal digits at `i`. */
  method HexStr(s: seq<nat>, i: nat) returns (n: nat, j: nat)
    requires i <= |s|
    ensures i <= j <= |s| && (n, s[j..]) == Hex(s[i..], 2, 0)
  {
    n, j := 0, i;
    var k := 0;
    while k < 2 && j < |s| && IsHex(s[j])
      invariant i <= j <= |s| && k <= 2 && Hex(s[i..], 2, 0) == Hex(s[j..], 2 - k, n)
      decreases 2 - k
    {
      n := 16 * n + HexValue(s[j]);
      j := j + 1;
      k := k + 1;
    }
  }

  /** The character that stands at `i` after a backslash. */
  method QuotedChar(s: seq<nat>, i: nat) returns (c: nat, j: nat)
    requires i < |s|
    ensures i < j <= |s| && (c, s[j..]) == Quoted(s[i..])
  {
    c, j := s[i], i + 1;
    assert s[i..][1..] == s[j..];
    if c == 116 { c := 9; }
    else if c == 110 { c := 10; }
    else if c == 102 { c := 12; }
    else if c == 114 { c := 13; }
    else if c == 98 { c := 8; }
    else if c == BACKSLASH { }
    else if c == 120 {
      c, j := HexStr(s, j);
    } else if IsOctal(c) {
      c := c - 48;
      OctalDigits(s[j..], c);
      if j < |s| && IsOctal(s[j]) {
        c := 8 * c + (s[j] - 48);
        j := j + 1;
        if j < |s| && IsOctal(s[j]) {
          c := 8 * c + (s[j] - 48);
          j := j + 1;
        }
      }
    }
  }

  lemma OctalDigits(s: seq<nat>, n: nat)
    ensures Octal(s, 2, n) ==
              if s == [] || !IsOctal(s[0]) then (n, s)
              else var m := 8 * n + (s[0] - 48);
                   if |s| == 1 || !IsOctal(s[1]) then (m, s[1..]) else (8 * m + (s[1] - 48), s[2..])
  {
    if s != [] && IsOctal(s[0]) {
      var t := s[1..];
      if t != [] && IsOctal(t[0]) { assert t[1..] == s[2..]; }
    }
  }

  /** Read a class up to its closing bracket. */
  method ClassBody(s: seq<nat>, i: nat) returns (r: Result<seq<nat>>, j: nat)
    requires i <= |s|
    ensures j <= |s| && (match ClassText(s[i..], [])
                         case Err(e) => r == Err(e)
                         case Ok((raw, rest)) => r == Ok(raw) && rest == s[j..] && i <= j)
  {
    var buf: seq<nat> := [];
    j := i;
    while true
      invariant i <= j <= |s| && ClassText(s[i..], []) == ClassText(s[j..], buf)
      decreases |s| - j
    {
      if j == |s| { return Err(NonterminatedClass), j; }
      var c := s[j];
      if c == BACKSLASH {
        if j + 1 == |s| { return Err(NonterminatedClass), j; }
        assert s[j..][2..] == s[j + 2..];
        buf := buf + [BACKSLASH, s[j + 1]];
        j := j + 2;
      } else if c == NEWLINE {
        return Err(NewlineInClass), j;
      } else {
        assert s[j..][1..] == s[j + 1..];
        if buf != [] && c == RBRACKET { return Ok(buf), j + 1; }
        buf := buf + [c];
        j := j + 1;
      }
    }
  }

  /** Write a class out. */
  method CclEnter(p: seq<nat>) returns (m: seq<nat>)
    ensures m == ClassMembers(p)
  {
    var buf: seq<nat>, i := [], 0;
    while i < |p|
      invariant i <= |p| && Expand(p, []) == Expand(p[i..], buf)
      decreases |p| - i
    {
      if p[i] == MINUS && buf != [] && buf[|buf| - 1] != 0 && i + 1 < |p| {
        assert p[i..][1..] == p[i + 1..];
        var hi, j := ClassCharAt(p, i + 1);
        buf := AddClassRange(buf, hi);
        i := j;
      } else {
        var c, j := ClassCharAt(p, i);
        buf := buf + [c % 256];
        i := j;
      }
    }
    m := CString(buf);
  }

  method AddClassRange(buf0: seq<nat>, hi: nat) returns (buf: seq<nat>)
    requires buf0 != []
    ensures buf == AddRange(buf0, hi)
  {
    buf := buf0;
    var c := buf[|buf| - 1];
    if c > hi { return buf[..|buf| - 1]; }
    ghost var lo := c;
    while c < hi
      invariant c <= hi && buf0 + Upto(lo, hi) == buf + Upto(c, hi)
      decreases hi - c
    {
      c := c + 1;
      assert buf + ([c % 256] + Upto(c, hi)) == (buf + [c % 256]) + Upto(c, hi);
      buf := buf + [c % 256];
    }
    assert buf + [] == buf;
  }

  method ClassCharAt(p: seq<nat>, i: nat) returns (c: nat, j: nat)
    requires i < |p|
    ensures i < j <= |p| && (c, p[j..]) == ClassChar(p[i..])
  {
    assert p[i..][1..] == p[i + 1..];
    if p[i] == BACKSLASH && i + 1 < |p| { c, j := QuotedChar(p, i + 1); } else { c, j := p[i], i + 1; }
  }

  // ----- The parser.

  class Parser {
    const lastre: seq<nat>   // the whole expression
    var prestr: nat          // where the next token begins
    var rtok: Token          // the current token

    constructor (s: seq<nat>)
      ensures lastre == s && prestr == 0
    {
      lastre, prestr, rtok := s, 0, TEnd;
    }

    predicate Valid()
      reads this
    {
      prestr <= |lastre|
    }

    function Cur(): Cursor
      requires Valid()
      reads this
    {
      Cursor(rtok, lastre[prestr..])
    }

    /** The method did what the function says, or failed as it says. */
    predicate Did(f: Parsed, r: Result<Re>)
      reads this
    {
      match f
      case Err(e) => r == Err(e)
      case Ok((t, c)) => Valid() && r == Ok(t) && Cur() == c
    }

    /** Read the next token. */
    method Relex() returns (r: Result<()>)
      requires Valid()
      modifies this
      ensures match Lex(old(lastre[prestr..]))
              case Err(e) => r == Err(e)
              case Ok(c) => r.Ok? && Valid() && Cur() == c
    {
      ghost var s := lastre[prestr..];
      if prestr == |lastre| { rtok := TEnd; return Ok(()); }
      var c := lastre[prestr];
      prestr := prestr + 1;
      assert s[1..] == lastre[prestr..];
      if c == BACKSLASH {
        if prestr == |lastre| { return Err(PastEnd); }
        var v, j := QuotedChar(lastre, prestr);
        rtok, prestr := TChar(v), j;
      } else if c == LBRACKET {
        var cflag := prestr < |lastre| && lastre[prestr] == CARET;
        if cflag { prestr := prestr + 1; }
        assert lastre[prestr..] == if cflag then s[1..][1..] else s[1..];
        var raw, j := ClassBody(lastre, prestr);
        if raw.Err? { return Err(raw.error); }
        rtok, prestr := if cflag then TNccl(raw.value) else TCcl(raw.value), j;
      } else {
        rtok := if c == BAR then TOr else if c == STAR then TStar else if c == PLUS then TPlus
                else if c == QUEST then TQuest else if c == DOT then TDot else if c == CARET then THat
                else if c == DOLLAR then TDollar else if c == OPEN then TOpen else if c == CLOSE then TClose
                else TChar(c);
      }
      return Ok(());
    }

    method ParseRegexp() returns (r: Result<Re>)
      requires Valid()
      modifies this
      ensures Did(Regexp(old(Cur())), r)
      decreases Size(Cur()), 3
    {
      var p :- ParsePrimary();
      var q :- ParseConcat(p);
      r := ParseAlt(q);
    }

    method ParsePrimary() returns (r: Result<Re>)
      requires Valid()
      modifies this
      ensures Did(Primary(old(Cur())), r)
      decreases Size(Cur()), 0
    {
      match rtok
      case TChar(v) => r := SkipThenUnary(Atom(0, Char(v)));
      case TDot => r := SkipThenUnary(Atom(0, Dot));
      case TCcl(raw) =>
        var m := CclEnter(raw);
        r := SkipThenUnary(Atom(0, Ccl(m)));
      case TNccl(raw) =>
        var m := CclEnter(raw);
        r := SkipThenUnary(Atom(0, Nccl(m)));
      case THat => r := SkipThenUnary(Atom(0, Char(HAT)));
      case TDollar => r := SkipThenUnary(Atom(0, Char(NUL)));
      case TOpen =>
        var _ :- Relex();
        if rtok == TClose {
          r := SkipThenUnary(Atom(0, Ccl([])));
        } else {
          var np :- ParseRegexp();
          if rtok == TClose { r := SkipThenUnary(np); } else { r := Err(SyntaxError); }
        }
      case _ => r := Err(IllegalPrimary);
    }

    method SkipThenUnary(np: Re) returns (r: Result<Re>)
      requires Valid() && rtok != TEnd
      modifies this
      ensures Did(ThenUnary(np, old(Cur())), r)
    {
      var _ :- Relex();
      r := ParseUnary(np);
    }

    method ParseUnary(np: Re) returns (r: Result<Re>)
      requires Valid()
      modifies this
      ensures Did(Unary(np, old(Cur())), r)
      decreases Size(Cur())
    {
      match rtok
      case TStar =>
        var _ :- Relex();
        r := ParseUnary(Star(np));
      case TPlus =>
        var _ :- Relex();
        r := ParseUnary(Plus(np));
      case TQuest =>
        var _ :- Relex();
        r := ParseUnary(Quest(np));
      case _ => r := Ok(np);
    }

    method ParseConcat(np: Re) returns (r: Result<Re>)
      requires Valid()
      modifies this
      ensures Did(Concat(np, old(Cur())), r)
      decreases Size(Cur()), 1
    {
      if Concatenates(rtok) {
        var p :- ParsePrimary();
        r := ParseConcat(Cat(np, p));
      } else {
        r := Ok(np);
      }
    }

    method ParseAlt(np: Re) returns (r: Result<Re>)
      requires Valid()
      modifies this
      ensures Did(Alt(np, old(Cur())), r)
      decreases Size(Cur()), 2
    {
      if rtok == TOr {
        var _ :- Relex();
        var p :- ParsePrimary();
        var q :- ParseConcat(p);
        r := ParseAlt(Or(np, q));
      } else {
        r := Ok(np);
      }
    }
  }

  /** Parse a whole expression. */
  method ReparseText(s: seq<nat>) returns (r: Result<Re>)
    ensures r == Reparse(s)
  {
    var p := new Parser(s);
    assert s[0..] == s;
    var _ :- p.Relex();
    if p.rtok == TEnd { return Err(EmptyRegex); }
    var np :- p.ParseRegexp();
    r := if p.rtok == TEnd then Ok(np) else Err(SyntaxError);
  }

  lemma {:induction false} PrintableIsPlain(t: Re)
    requires Printable(t)
    ensures Plain(t)
  {
    match t
    case Atom(_, _) =>
    case Star(a) => PrintableIsPlain(a);
    case Plus(a) => PrintableIsPlain(a);
    case Quest(a) => PrintableIsPlain(a);
    case Cat(a, b) => PrintableIsPlain(a); PrintableIsPlain(b);
    case Or(a, b) => PrintableIsPlain(a); PrintableIsPlain(b);
  }

  /** The automaton for the text of an expression, ready for its first call. */
  method MakeDfa(s: seq<nat>, anchor: bool) returns (r: Result<Fa>)
    requires Chars(s)
    ensures match Reparse(s)
            case Err(e) => r == Err(e)
            case Ok(t) =>
              r.Ok? && r.value.Valid() && r.value.expr == t && Recognises(r.value.rows, r.value.starts, t) &&
                !r.value.reset &&
              (NoHat(t) ==> HatState(r.value.rows, r.value.starts) == 2) &&
              (!anchor ==> Searchable(r.value.rows, r.value.starts, r.value.View())) &&
              (anchor ==>
                 Usable(r.value.rows, r.value.starts, r.value.View()) &&
                   SeesHat(r.value.rows, r.value.starts, r.value.View()))
  {
    var p := ReparseText(s);
    if p.Err? { return Err(p.error); }
    ParsePrintParse(s);
    PrintableIsPlain(p.value);
    var f := Mkdfa(p.value, anchor);
    return Ok(f);
  }
}
