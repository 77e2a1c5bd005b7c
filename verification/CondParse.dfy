/** The parser of pmake's conditions (bsdmake/cond.c): `CondToken` with its push-back slot,
    `CondT`, `CondF`, `CondE` and `Cond_EvalExpression`, as functions on the stream of symbols. */
module CondParse {

  datatype Token = And | Or | Not | True | False | LParen | RParen | EndOfFile | None | Err

  /** What `CondToken` finds in the text. An atom (`defined(X)`, `$(X) == y`, ...) has one value
      when it is evaluated and one when it is not; `Bad` is one that it reports as an error,
      moving past it or not. */
  datatype Symbol = Open | Close | AndSign | OrSign | NotSign | Atom(holds: bool, unevaluated: bool) | Bad(moves: bool)

  /** The push-back slot (`None` when it is empty) and the text that is left. */
  datatype Stream = Stream(slot: Token, text: seq<Symbol>)

  datatype Result = Result(t: Token, left: Stream)

  function Truth(b: bool): Token {
    if b then True else False
  }

  function SymbolToken(s: seq<Symbol>, doEval: bool): (t: Token)
    ensures t != None
  {
    if s == [] then EndOfFile
    else
      match s[0]
      case Open => LParen
      case Close => RParen
      case AndSign => And
      case OrSign => Or
      case NotSign => Not
      case Atom(holds, unevaluated) => Truth(if doEval then holds else unevaluated)
      case Bad(_) => Err
  }

  function Behind(s: seq<Symbol>): (r: seq<Symbol>)
    ensures |r| <= |s|
  {
    if s == [] || (s[0].Bad? && !s[0].moves) then s else s[1..]
  }

  function Size(st: Stream): nat {
    |st.text| + if st.slot == None then 0 else 1
  }

  function CondToken(st: Stream, doEval: bool): (r: Result)
    ensures r.left.slot == None && Size(r.left) <= Size(st)
    ensures r.t !in {EndOfFile, Err} ==> Size(r.left) < Size(st)
  {
    if st.slot == None then Result(SymbolToken(st.text, doEval), Stream(None, Behind(st.text)))
    else Result(st.slot, Stream(None, st.text))
  }

  function PushedBack(r: Result): Stream {
    Stream(r.t, r.left.text)
  }

  function CondT(st: Stream, doEval: bool): (r: Result)
    ensures r.left.slot == None && Size(r.left) <= Size(st)
    ensures r.t != EndOfFile && (r.t != Err ==> Size(r.left) < Size(st))
    decreases Size(st), 0
  {
    var first := CondToken(st, doEval);
    if first.t == EndOfFile then Result(Err, first.left)
    else if first.t == LParen then
      var inner := CondE(first.left, doEval);
      if inner.t == Err then inner
      else
        var close := CondToken(inner.left, doEval);
        Result(if close.t == RParen then inner.t else Err, close.left)
    else if first.t == Not then
      var arg := CondT(first.left, doEval);
      Result(if arg.t == True then False else if arg.t == False then True else arg.t, arg.left)
    else first
  }

  function CondF(st: Stream, doEval: bool): (r: Result)
    ensures Size(r.left) <= Size(st) && r.t != EndOfFile && (r.t == Err ==> r.left.slot == None)
    decreases Size(st), 1
  {
    var l := CondT(st, doEval);
    if l.t == Err then l
    else
      var o := CondToken(l.left, doEval);
      if o.t == And then
        if l.t == True then CondF(o.left, doEval) else Result(l.t, CondF(o.left, false).left)
      else Result(l.t, PushedBack(o))
  }

  function CondE(st: Stream, doEval: bool): (r: Result)
    ensures Size(r.left) <= Size(st) && r.t != EndOfFile && (r.t == Err ==> r.left.slot == None)
    decreases Size(st), 2
  {
    var l := CondF(st, doEval);
    if l.t == Err then l
    else
      var o := CondToken(l.left, doEval);
      if o.t == Or then
        if l.t == False then CondE(o.left, doEval) else Result(l.t, CondE(o.left, false).left)
      else Result(l.t, PushedBack(o))
  }
}
