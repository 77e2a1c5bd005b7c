/** The lexical analyser of awk/b.c: escapes, character classes, tokens. Characters are
    codes 1..255; the NUL that ends a C string is the end of the sequence. */
module RegexLex {
  import opened RegexTree

  const BAR: nat := 124
  const STAR: nat := 42
  const PLUS: nat := 43
  const QUEST: nat := 63
  const DOT: nat := 46
  const CARET: nat := 94
  const DOLLAR: nat := 36
  const OPEN: nat := 40
  const CLOSE: nat := 41
  const BACKSLASH: nat := 92
  const LBRACKET: nat := 91
  const RBRACKET: nat := 93
  const MINUS: nat := 45
  const NEWLINE: nat := 10

  datatype Result<T> = Ok(value: T) | Err(error: Error) {
    predicate IsFailure() {
      Err?
    }

    function PropagateFailure<U>(): Result<U>
      requires Err?
    {
      Err(error)
    }

    function Extract(): T
      requires Ok?
    {
      value
    }
  }

  /** `PastEnd`: a backslash at the very end makes `quoted` step over the terminator. */
  datatype Error = EmptyRegex | SyntaxError | IllegalPrimary | NonterminatedClass | NewlineInClass | PastEnd

  datatype Token =
    | TOr | TStar | TPlus | TQuest | TDot | THat | TDollar | TOpen | TClose | TEnd
    | TChar(c: Symbol)
    | TCcl(raw: seq<nat>)
    | TNccl(raw: seq<nat>)

  // ----- Escapes.

  predicate IsOctal(c: nat) {
    48 <= c <= 55
  }

  predicate IsHex(c: nat) {
    48 <= c <= 57 || 97 <= c <= 102 || 65 <= c <= 70
  }

  function HexValue(c: nat): nat
    requires IsHex(c)
  {
    if c <= 57 then c - 48 else if c >= 97 then c - 97 + 10 else c - 65 + 10
  }

  /** At most `k` hexadecimal digits: the value so far `n` extended, and what is left. */
  function Hex(s: seq<nat>, k: nat, n: nat): (r: (nat, seq<nat>))
    ensures |r.1| <= |s|
    decreases k
  {
    if k == 0 || s == [] || !IsHex(s[0]) then (n, s) else Hex(s[1..], k - 1, 16 * n + HexValue(s[0]))
  }

  /** At most `k` more octal digits. */
  function Octal(s: seq<nat>, k: nat, n: nat): (r: (nat, seq<nat>))
    ensures |r.1| <= |s|
    decreases k
  {
    if k == 0 || s == [] || !IsOctal(s[0]) then (n, s) else Octal(s[1..], k - 1, 8 * n + (s[0] - 48))
  }

  /** What follows a backslash: the character it stands for, and what is left. */
  function Quoted(s: seq<nat>): (r: (nat, seq<nat>))
    requires s != []
    ensures |r.1| < |s|
  {
    var c, t := s[0], s[1..];
    if c == 116 then (9, t)          // \t
    else if c == 110 then (10, t)    // \n
    else if c == 102 then (12, t)    // \f
    else if c == 114 then (13, t)    // \r
    else if c == 98 then (8, t)      // \b
    else if c == BACKSLASH then (BACKSLASH, t)
    else if c == 120 then Hex(t, 2, 0)
    else if IsOctal(c) then Octal(t, 2, c - 48)
    else (c, t)
  }

  // ----- Character classes.

  /** The text of a class up to its closing bracket; `buf` is what was read of it. The
      first character is taken as it is, even a bracket. */
  function ClassText(s: seq<nat>, buf: seq<nat>): (r: Result<(seq<nat>, seq<nat>)>)
    ensures r.Ok? ==> |r.value.1| < |s|
    decreases |s|
  {
    if s == [] then Err(NonterminatedClass)
    else if s[0] == BACKSLASH then
      if |s| == 1 then Err(NonterminatedClass) else ClassText(s[2..], buf + [BACKSLASH, s[1]])
    else if s[0] == NEWLINE then Err(NewlineInClass)
    else if buf != [] && s[0] == RBRACKET then Ok((buf, s[1..]))
    else ClassText(s[1..], buf + [s[0]])
  }

  /** The characters after `c` up to `hi`, as they are stored in bytes. */
  function Upto(c: nat, hi: nat): seq<nat>
    decreases hi - c
  {
    if c >= hi then [] else [(c + 1) % 256] + Upto(c + 1, hi)
  }

  /** One character of a class, perhaps escaped. */
  function ClassChar(p: seq<nat>): (r: (nat, seq<nat>))
    requires p != []
    ensures |r.1| < |p|
  {
    if p[0] == BACKSLASH && |p| > 1 then Quoted(p[1..]) else (p[0], p[1..])
  }

  /** Does a range begin here? A minus that is first or last, or follows a NUL, is none. */
  predicate IsRange(p: seq<nat>, buf: seq<nat>) {
    |p| > 1 && p[0] == MINUS && buf != [] && buf[|buf| - 1] != 0
  }

  /** The range from the last character to `hi`; one that runs backwards is dropped together
      with its lower end. */
  function AddRange(buf: seq<nat>, hi: nat): seq<nat>
    requires buf != []
  {
    var c := buf[|buf| - 1];
    if c > hi then buf[..|buf| - 1] else buf + Upto(c, hi)
  }

  function AddByte(buf: seq<nat>, c: nat): seq<nat> {
    buf + [c % 256]
  }

  /** A class written out, behind what was written of it already. */
  function Expand(p: seq<nat>, buf: seq<nat>): seq<nat>
    decreases |p|
  {
    if p == [] then buf
    else if IsRange(p, buf) then
      var (hi, rest) := ClassChar(p[1..]);
      Expand(rest, AddRange(buf, hi))
    else
      var (c, rest) := ClassChar(p);
      Expand(rest, AddByte(buf, c))
  }

  /** A C string ends at its first NUL. */
  function CString(s: seq<nat>): seq<nat> {
    if s == [] || s[0] == 0 then [] else [s[0]] + CString(s[1..])
  }

  /** The members of a class, as `cclenter` leaves them. */
  function ClassMembers(raw: seq<nat>): seq<nat> {
    CString(Expand(raw, []))
  }

  // ----- Tokens.

  /** A cursor: the token just read and what follows it. */
  datatype Cursor = Cursor(tok: Token, rest: seq<nat>)

  /** How much is left, the current token included. */
  function Size(c: Cursor): nat {
    |c.rest| + if c.tok == TEnd then 0 else 1
  }

  function Lex(s: seq<nat>): (r: Result<Cursor>)
    ensures r.Ok? ==> Size(r.value) <= |s|
  {
    if s == [] then Ok(Cursor(TEnd, []))
    else
      var c, t := s[0], s[1..];
      if c == BAR then Ok(Cursor(TOr, t))
      else if c == STAR then Ok(Cursor(TStar, t))
      else if c == PLUS then Ok(Cursor(TPlus, t))
      else if c == QUEST then Ok(Cursor(TQuest, t))
      else if c == DOT then Ok(Cursor(TDot, t))
      else if c == CARET then Ok(Cursor(THat, t))
      else if c == DOLLAR then Ok(Cursor(TDollar, t))
      else if c == OPEN then Ok(Cursor(TOpen, t))
      else if c == CLOSE then Ok(Cursor(TClose, t))
      else if c == BACKSLASH then
        if t == [] then Err(PastEnd)
        else var (v, rest) := Quoted(t); Ok(Cursor(TChar(v), rest))
      else if c == LBRACKET then
        var negated := t != [] && t[0] == CARET;
        var (raw, rest) :- ClassText(if negated then t[1..] else t, []);
        Ok(Cursor(if negated then TNccl(raw) else TCcl(raw), rest))
      else Ok(Cursor(TChar(c), t))
  }
}
