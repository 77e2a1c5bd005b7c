/** awk's record and fields as a program sees them: `$0` and `$1`, ... as two lists that are
    brought up to date at every write (the behaviour of awk/lib.c and awk/tran.c). */
module AwkFields {

  /** What a cell holds: its text and its number. */
  datatype Value = Value(text: string, number: real)

  /** FS (as it was when the record was read) and OFS, the conversions between text and numbers
      (CONVFMT, `atof`, `isnumber`), and the splitting by a regular expression. */
  datatype Env = Env(fs: string, ofs: string, conv: real -> string, atof: string -> real,
                     isNumber: string -> bool, cut: string -> seq<string>)

  datatype Eager = Eager(record: Value, fields: seq<Value>)

  function Plain(env: Env, s: string): Value {
    Value(s, env.atof(s))
  }

  // ----- Splitting.

  predicate Blank(c: char) {
    c == ' ' || c == '\t' || c == '\n'
  }

  function SkipBlanks(s: string): (t: string)
    ensures |t| <= |s| && (t != "" ==> !Blank(t[0]))
  {
    if s != "" && Blank(s[0]) then SkipBlanks(s[1..]) else s
  }

  function WordLength(s: string): (n: nat)
    ensures n <= |s|
  {
    if s == "" || Blank(s[0]) then 0 else 1 + WordLength(s[1..])
  }

  /** Maximal words between blanks. */
  function Words(s: string): seq<string>
    decreases |s|
  {
    var t := SkipBlanks(s);
    if t == "" then []
    else
      var n := WordLength(t);
      [t[..n]] + Words(t[n..])
  }

  /** A newline always separates, whatever the separator is. */
  predicate Separates(c: char, sep: char) {
    c == sep || c == '\n'
  }

  function ChunkLength(s: string, sep: char): (n: nat)
    ensures n <= |s|
  {
    if s == "" || Separates(s[0], sep) then 0 else 1 + ChunkLength(s[1..], sep)
  }

  function Chunks(s: string, sep: char): (r: seq<string>)
    ensures r != []
    decreases |s|
  {
    var n := ChunkLength(s, sep);
    [s[..n]] + if n == |s| then [] else Chunks(s[n + 1..], sep)
  }

  function Letters(s: string): seq<string> {
    if s == "" then [] else [[s[0]]] + Letters(s[1..])
  }

  /** The texts of the fields of a record. */
  function Split(env: Env, s: string): seq<string> {
    if |env.fs| > 1 then (if s == "" then [] else env.cut(s))
    else if env.fs == " " then Words(s)
    else if env.fs == "" then Letters(s)
    else if s == "" then []
    else Chunks(s, env.fs[0])
  }

  function Plains(env: Env, ts: seq<string>): (vs: seq<Value>)
    ensures |vs| == |ts|
  {
    seq(|ts|, i requires 0 <= i < |ts| => Plain(env, ts[i]))
  }

  // ----- Joining.

  function Texts(vs: seq<Value>): (ts: seq<string>)
    ensures |ts| == |vs|
  {
    seq(|vs|, i requires 0 <= i < |vs| => vs[i].text)
  }

  function Join(ts: seq<string>, ofs: string): string {
    if ts == [] then "" else if |ts| == 1 then ts[0] else ts[0] + (ofs + Join(ts[1..], ofs))
  }

  // ----- Writes and reads.

  function SetRecord(env: Env, v: Value): Eager {
    Eager(v, Plains(env, Split(env, v.text)))
  }

  function Pad(env: Env, fields: seq<Value>, n: nat): (r: seq<Value>)
    ensures |r| == if |fields| < n then n else |fields|
    ensures forall i :: 0 <= i < |r| ==> r[i] == if i < |fields| then fields[i] else Plain(env, "")
  {
    if |fields| < n then fields + seq(n - |fields|, _ => Plain(env, "")) else fields
  }

  function SetField(env: Env, e: Eager, i: nat, v: Value): Eager
    requires i > 0
  {
    var fields := Pad(env, e.fields, i)[i - 1 := v];
    Eager(Plain(env, Join(Texts(fields), env.ofs)), fields)
  }

  function Set(env: Env, e: Eager, i: nat, v: Value): Eager {
    if i == 0 then SetRecord(env, v) else SetField(env, e, i, v)
  }

  /** `$i`; fields behind the last one are empty. */
  function Get(env: Env, e: Eager, i: nat): Value {
    if i == 0 then e.record else if i <= |e.fields| then e.fields[i - 1] else Plain(env, "")
  }

  datatype Op =
    | GetText(i: nat) | GetNumber(i: nat) | CountFields
    | PutText(i: nat, s: string) | PutNumber(i: nat, f: real) | PutTwin(i: nat, s: string, f: real)
    | NextRecord(s: string)

  datatype Out = SawText(s: string) | SawNumber(f: real) | SawCount(n: nat) | Nothing

  function After(env: Env, e: Eager, op: Op): Eager {
    match op
    case PutText(i, s) => Set(env, e, i, Plain(env, s))
    case PutNumber(i, f) => Set(env, e, i, Value(env.conv(f), f))
    case PutTwin(i, s, f) => Set(env, e, i, Value(s, f))
    case NextRecord(s) => SetRecord(env, Plain(env, s))
    case _ => e
  }

  function Seen(env: Env, e: Eager, op: Op): Out {
    match op
    case GetText(i) => SawText(Get(env, e, i).text)
    case GetNumber(i) => SawNumber(Get(env, e, i).number)
    case CountFields => SawCount(|e.fields|)
    case _ => Nothing
  }

  function SeenAll(env: Env, e: Eager, ops: seq<Op>): seq<Out>
    decreases ops
  {
    if ops == [] then [] else [Seen(env, e, ops[0])] + SeenAll(env, After(env, e, ops[0]), ops[1..])
  }

  lemma SeenStep(env: Env, e: Eager, ops: seq<Op>, i: nat, outs: seq<Out>)
    requires i < |ops|
    ensures outs + SeenAll(env, e, ops[i..]) ==
              (outs + [Seen(env, e, ops[i])]) + SeenAll(env, After(env, e, ops[i]), ops[i + 1..])
  {
    assert ops[i..][1..] == ops[i + 1..];
  }

  // ----- When a record that has been put together splits into its fields again.

  predicate Free(t: string, sep: char) {
    forall i :: 0 <= i < |t| ==> !Separates(t[i], sep)
  }

  predicate Word(t: string) {
    t != "" && forall i :: 0 <= i < |t| ==> !Blank(t[i])
  }

  lemma {:induction false} ChunkIsFree(s: string, sep: char)
    ensures Free(s[..ChunkLength(s, sep)], sep)
  {
    if s != "" && !Separates(s[0], sep) {
      ChunkIsFree(s[1..], sep);
      var n := ChunkLength(s[1..], sep);
      assert s[..n + 1] == [s[0]] + s[1..][..n];
    }
  }

  lemma {:induction false} WordIsFree(s: string)
    ensures forall i :: 0 <= i < WordLength(s) ==> !Blank(s[i])
  {
    if s != "" && !Blank(s[0]) {
      WordIsFree(s[1..]);
      assert forall i :: 0 < i < |s| ==> s[i] == s[1..][i - 1];
    }
  }

  lemma {:induction false} ChunkPieces(s: string, sep: char, i: nat)
    requires i < |Chunks(s, sep)|
    ensures Free(Chunks(s, sep)[i], sep)
    decreases |s|
  {
    var n := ChunkLength(s, sep);
    ChunkIsFree(s, sep);
    if i > 0 { ChunkPieces(s[n + 1..], sep, i - 1); }
  }

  lemma {:induction false} ChunkFront(t: string, sep: char, r: string)
    requires Free(t, sep)
    ensures ChunkLength(t + r, sep) == |t| + ChunkLength(r, sep)
  {
    if t == "" {
      assert t + r == r;
    } else {
      assert (t + r)[1..] == t[1..] + r;
      ChunkFront(t[1..], sep, r);
    }
  }

  lemma TakeDrop(t: string, c: char, more: string)
    ensures (t + ([c] + more))[..|t|] == t && (t + ([c] + more))[|t| + 1..] == more
  {
  }

  lemma FirstChunk(t: string, sep: char, more: string)
    requires Free(t, sep)
    ensures ChunkLength(t + ([sep] + more), sep) == |t|
  {
    ChunkFront(t, sep, [sep] + more);
  }

  lemma ChunksFirst(t: string, sep: char, more: string)
    requires Free(t, sep)
    ensures Chunks(t + ([sep] + more), sep) == [t] + Chunks(more, sep)
  {
    hide ChunkLength;
    FirstChunk(t, sep, more);
    TakeDrop(t, sep, more);
  }

  lemma ChunksOne(t: string, sep: char)
    requires Free(t, sep)
    ensures Chunks(t, sep) == [t]
  {
    ChunkFront(t, sep, "");
    assert t + "" == t && t[..|t|] == t;
  }

  lemma {:induction false} ChunksOfJoin(ts: seq<string>, sep: char)
    requires ts != [] && forall i :: 0 <= i < |ts| ==> Free(ts[i], sep)
    ensures Chunks(Join(ts, [sep]), sep) == ts
  {
    if |ts| == 1 {
      ChunksOne(ts[0], sep);
    } else {
      ChunksFirst(ts[0], sep, Join(ts[1..], [sep]));
      ChunksOfJoin(ts[1..], sep);
      assert ts == [ts[0]] + ts[1..];
    }
  }

  /** MAIN: with one and the same character as FS and OFS, a record that is put together from
      its fields splits into the same fields exactly when no field holds the separator or a
      newline, and there is not just one empty field. */
  lemma ResplitBySeparator(env: Env, ts: seq<string>)
    requires |env.fs| == 1 && env.fs != " " && env.ofs == env.fs
    ensures Split(env, Join(ts, env.ofs)) == ts
            <==> ts != [""] && forall i :: 0 <= i < |ts| ==> Free(ts[i], env.fs[0])
  {
    var s, sep := Join(ts, env.ofs), env.fs[0];
    assert env.ofs == [sep];
    if Split(env, s) == ts {
      if s != "" {
        forall i | 0 <= i < |ts| ensures Free(ts[i], sep) { ChunkPieces(s, sep, i); }
      }
    }
    if ts != [] && forall i :: 0 <= i < |ts| ==> Free(ts[i], sep) {
      ChunksOfJoin(ts, sep);
      if s == "" { assert Chunks(s, sep) == [""]; }
    }
  }

  lemma {:induction false} WordPieces(s: string, i: nat)
    requires i < |Words(s)|
    ensures Word(Words(s)[i])
    decreases |s|
  {
    var t := SkipBlanks(s);
    WordIsFree(t);
    if i > 0 { WordPieces(t[WordLength(t)..], i - 1); }
  }

  lemma {:induction false} WordFront(t: string, r: string)
    requires Word(t) && (r != "" ==> Blank(r[0]))
    ensures WordLength(t + r) == |t|
  {
    assert (t + r)[0] == t[0];
    assert (t + r)[1..] == t[1..] + r;
    if |t| > 1 { WordFront(t[1..], r); } else { assert t[1..] + r == r; }
  }

  lemma {:induction false} WordsOfJoin(ts: seq<string>)
    requires forall i :: 0 <= i < |ts| ==> Word(ts[i])
    ensures Words(Join(ts, " ")) == ts
  {
    if ts != [] {
      var t := ts[0];
      var r := if |ts| == 1 then "" else " " + Join(ts[1..], " ");
      assert Join(ts, " ") == t + r by { if |ts| == 1 { assert t + r == t; } }
      WordFront(t, r);
      assert SkipBlanks(t + r) == t + r && (t + r)[..|t|] == t && (t + r)[|t|..] == r;
      if |ts| > 1 {
        assert r[1..] == Join(ts[1..], " ");
        WordsOfJoin(ts[1..]);
        assert Words(r) == Words(r[1..]);
      }
    }
  }

  /** MAIN: with blanks, exactly when every field is a word. */
  lemma ResplitByBlanks(env: Env, ts: seq<string>)
    requires env.fs == " " && env.ofs == " "
    ensures Split(env, Join(ts, env.ofs)) == ts <==> forall i :: 0 <= i < |ts| ==> Word(ts[i])
  {
    if Split(env, Join(ts, env.ofs)) == ts {
      forall i | 0 <= i < |ts| ensures Word(ts[i]) { WordPieces(Join(ts, " "), i); }
    }
    if forall i :: 0 <= i < |ts| ==> Word(ts[i]) { WordsOfJoin(ts); }
  }
}
