/** The cache that awk keeps instead: `$0` and the fields are brought up to date only when they
    are looked at (awk/lib.c, awk/tran.c, awk/run.c). */
module AwkRecord {
  import opened AwkFields

  /** `isStr` and `isNum` say which of the two values is good. */
  datatype Cell = Cell(sval: string, fval: real, isStr: bool, isNum: bool)

  predicate Sound(c: Cell) {
    c.isStr || c.isNum
  }

  function Held(env: Env, c: Cell): Value {
    Value(if c.isStr then c.sval else env.conv(c.fval), if c.isNum then c.fval else env.atof(c.sval))
  }

  /** The fields in the cells `1..n`. */
  function FieldsIn(env: Env, tab: seq<Cell>, n: nat): (vs: seq<Value>)
    requires n < |tab|
    ensures |vs| == n
  {
    seq(n, i requires 0 <= i < n => Held(env, tab[i + 1]))
  }

  /** The cells behind the last field are empty. */
  predicate EmptyBehind(env: Env, tab: seq<Cell>, n: nat) {
    forall i :: n < i < |tab| ==> Held(env, tab[i]) == Plain(env, "")
  }

  predicate AllSound(tab: seq<Cell>) {
    forall i :: 0 <= i < |tab| ==> Sound(tab[i])
  }

  const EMPTY := Cell("", 0.0, true, false)

  function Text(s: string): Cell {
    Cell(s, 0.0, true, false)
  }

  /** The cells `1..|ts|` hold these texts; the other ones are those of `old`, or new ones. */
  predicate Filled(tab: seq<Cell>, was: seq<Cell>, ts: seq<string>) {
    && 0 < |was| <= |tab| && |ts| < |tab|
    && (forall i :: 0 < i <= |ts| ==> tab[i] == Text(ts[i - 1]))
    && (forall i :: |ts| < i < |tab| ==> tab[i] == if i < |was| then was[i] else EMPTY)
    && tab[0] == was[0]
  }

  lemma Snoc(done: seq<string>, x: string, rest: seq<string>)
    ensures done + ([x] + rest) == (done + [x]) + rest
  {
  }

  lemma WordStep(done: seq<string>, r: string)
    requires r != "" && !Blank(r[0])
    ensures var n := WordLength(r); n > 0 && done + Words(r) == (done + [r[..n]]) + Words(r[n..])
  {
    var n := WordLength(r);
    assert SkipBlanks(r) == r;
    Snoc(done, r[..n], Words(r[n..]));
  }

  class Record {
    const env: Env
    /** `$0` and the fields; there are at least as many cells as have ever been used. */
    var fldtab: seq<Cell>
    var donefld: bool
    var donerec: bool
    var lastfld: nat
    var nf: nat

    /** `recinit`. */
    constructor (e: Env, nfields: nat)
      ensures env == e && Valid() && |fldtab| == nfields + 1 && View() == SetRecord(env, Plain(env, ""))
    {
      env := e;
      fldtab := seq(nfields + 1, _ => EMPTY);
      donefld, donerec, lastfld, nf := false, false, 0, 0;
    }

    /** One of the two sides is always good; only before the first access neither is, and then
        both are empty. */
    ghost predicate Valid()
      reads this
    {
      && lastfld < |fldtab| && AllSound(fldtab) && EmptyBehind(env, fldtab, lastfld) && nf == lastfld
      && (donefld || donerec || (lastfld == 0 && Held(env, fldtab[0]) == Plain(env, "")))
    }

    /** What the program is to see. */
    ghost function View(): Eager
      requires Valid()
      reads this
    {
      var fields := if donefld then FieldsIn(env, fldtab, lastfld)
                    else Plains(env, Split(env, Held(env, fldtab[0]).text));
      var record := if donerec then Held(env, fldtab[0]) else Plain(env, Join(Texts(fields), env.ofs));
      Eager(record, fields)
    }

    // ----- The table.

    method Growfldtab(n: nat)
      requires |fldtab| > 0
      modifies this`fldtab
      ensures n < |fldtab| && old(fldtab) <= fldtab
      ensures forall i :: old(|fldtab|) <= i < |fldtab| ==> fldtab[i] == EMPTY
    {
      var size := 2 * (|fldtab| - 1);
      if n > size { size := n; }
      fldtab := fldtab + seq(size + 1 - |fldtab|, _ => EMPTY);
    }

    method Cleanfld(n1: nat, n2: nat)
      requires n2 < |fldtab|
      modifies this`fldtab
      ensures |fldtab| == old(|fldtab|)
      ensures forall i :: 0 <= i < |fldtab| ==> fldtab[i] == if n1 <= i <= n2 then EMPTY else old(fldtab)[i]
    {
      var i := n1;
      while i <= n2
        invariant n1 <= i && |fldtab| == old(|fldtab|)
        invariant forall j :: 0 <= j < |fldtab| ==>
                    fldtab[j] == if n1 <= j < i && j <= n2 then EMPTY else old(fldtab)[j]
        decreases n2 + 1 - i
      {
        fldtab := fldtab[i := EMPTY];
        i := i + 1;
      }
    }

    /** Another field, after the ones there are. */
    method Newfld(n: nat)
      requires Valid() && n > lastfld
      modifies this
      ensures n < |fldtab| && lastfld == n && nf == n && donefld == old(donefld) && donerec == old(donerec)
      ensures AllSound(fldtab) && EmptyBehind(env, fldtab, n)
      ensures FieldsIn(env, fldtab, n) == Pad(env, old(FieldsIn(env, fldtab, lastfld)), n)
      ensures fldtab[0] == old(fldtab[0])
    {
      if n >= |fldtab| { Growfldtab(n); }
      Cleanfld(lastfld + 1, n);
      lastfld := n;
      nf := n;
    }

    /** The next field, behind those of `done`. */
    method Put(i: nat, text: string, ghost was: seq<Cell>, ghost done: seq<string>)
      requires i == |done| + 1 && Filled(fldtab, was, done)
      modifies this`fldtab
      ensures Filled(fldtab, was, done + [text])
    {
      if i >= |fldtab| { Growfldtab(i); }
      fldtab := fldtab[i := Text(text)];
    }

    // ----- Splitting.

    method SplitBlanks(record: string) returns (i: nat)
      requires 0 < |fldtab|
      modifies this`fldtab
      ensures i == |Words(record)| && Filled(fldtab, old(fldtab), Words(record))
    {
      i := 0;
      var r := record;
      ghost var done: seq<string> := [];
      while true
        invariant |done| == i && Words(record) == done + Words(r)
        invariant Filled(fldtab, old(fldtab), done)
        decreases |r|
      {
        SkipBlanksTwice(r);
        r := PastBlanks(r);
        if r == "" {
          assert done + [] == done;
          break;
        }
        i := i + 1;
        var n := WordEnd(r);
        WordStep(done, r);
        Put(i, r[..n], old(fldtab), done);
        done := done + [r[..n]];
        r := r[n..];
      }
    }

    method SplitLetters(record: string) returns (i: nat)
      requires 0 < |fldtab|
      modifies this`fldtab
      ensures i == |Letters(record)| && Filled(fldtab, old(fldtab), Letters(record))
    {
      i := 0;
      ghost var done: seq<string> := [];
      while i < |record|
        invariant |done| == i <= |record| && Letters(record) == done + Letters(record[i..])
        invariant Filled(fldtab, old(fldtab), done)
      {
        var c := record[i];
        assert record[i..][1..] == record[i + 1..];
        i := i + 1;
        Put(i, [c], old(fldtab), done);
        assert done + ([[c]] + Letters(record[i..])) == (done + [[c]]) + Letters(record[i..]);
        done := done + [[c]];
      }
    }

    method SplitChunks(record: string, sep: char) returns (i: nat)
      requires 0 < |fldtab|
      modifies this`fldtab
      ensures i == |Chunks(record, sep)| && Filled(fldtab, old(fldtab), Chunks(record, sep))
    {
      i := 0;
      var r := record;
      ghost var done: seq<string> := [];
      while true
        invariant |done| == i && Chunks(record, sep) == done + Chunks(r, sep)
        invariant Filled(fldtab, old(fldtab), done)
        decreases |r|
      {
        i := i + 1;
        var n := ChunkEnd(r, sep);
        Put(i, r[..n], old(fldtab), done);
        Snoc(done, r[..n], if n == |r| then [] else Chunks(r[n + 1..], sep));
        done := done + [r[..n]];
        if n == |r| { break; }
        r := r[n + 1..];
      }
    }

    method SplitCut(record: string) returns (i: nat)
      requires 0 < |fldtab|
      modifies this`fldtab
      ensures var ts := if record == "" then [] else env.cut(record); i == |ts| && Filled(fldtab, old(fldtab), ts)
    {
      i := 0;
      if record == "" { return; }
      var ts := env.cut(record);
      while i < |ts|
        invariant i <= |ts| && Filled(fldtab, old(fldtab), ts[..i])
      {
        i := i + 1;
        Put(i, ts[i - 1], old(fldtab), ts[..i - 1]);
        assert ts[..i - 1] + [ts[i - 1]] == ts[..i];
      }
      assert ts[..i] == ts;
    }

    // ----- Bringing one side up to date.

    /** The text of a cell, made from its number if need be. */
    method CellText(i: nat) returns (s: string)
      requires i < |fldtab| && AllSound(fldtab)
      modifies this`fldtab
      ensures |fldtab| == old(|fldtab|) && AllSound(fldtab) && fldtab[i].isStr && fldtab[i].sval == s
      ensures Held(env, fldtab[i]) == old(Held(env, fldtab[i])) && s == Held(env, fldtab[i]).text
      ensures forall j :: 0 <= j < |fldtab| && j != i ==> fldtab[j] == old(fldtab)[j]
    {
      if !fldtab[i].isStr {
        fldtab := fldtab[i := fldtab[i].(sval := env.conv(fldtab[i].fval), isStr := true)];
      }
      s := fldtab[i].sval;
    }

    /** The number of a cell; it is kept as one if the text looks like a number. */
    method CellNumber(i: nat) returns (f: real)
      requires i < |fldtab| && AllSound(fldtab)
      modifies this`fldtab
      ensures |fldtab| == old(|fldtab|) && AllSound(fldtab)
      ensures Held(env, fldtab[i]) == old(Held(env, fldtab[i])) && f == Held(env, fldtab[i]).number
      ensures forall j :: 0 <= j < |fldtab| && j != i ==> fldtab[j] == old(fldtab)[j]
    {
      var vp := fldtab[i];
      if !vp.isNum {
        fldtab := fldtab[i := vp.(fval := env.atof(vp.sval), isNum := env.isNumber(vp.sval))];
      }
      f := fldtab[i].fval;
    }

    /** Fields that look like numbers are numbers. */
    method MarkNumbers(ghost ts: seq<string>)
      requires lastfld == |ts| < |fldtab| && AllSound(fldtab)
      requires forall i :: 0 < i <= |ts| ==> fldtab[i] == Text(ts[i - 1])
      modifies this`fldtab
      ensures |fldtab| == old(|fldtab|) && AllSound(fldtab)
      ensures FieldsIn(env, fldtab, lastfld) == Plains(env, ts)
      ensures forall j :: 0 <= j < |fldtab| && !(1 <= j <= lastfld) ==> fldtab[j] == old(fldtab)[j]
    {
      var j := 1;
      while j <= lastfld
        invariant 1 <= j <= lastfld + 1 && |fldtab| == old(|fldtab|) && AllSound(fldtab)
        invariant forall i :: 1 <= i < j ==> Held(env, fldtab[i]) == Plain(env, ts[i - 1])
        invariant forall i :: 0 <= i < |fldtab| && !(1 <= i < j) ==> fldtab[i] == old(fldtab)[i]
      {
        var p := fldtab[j];
        if env.isNumber(p.sval) {
          fldtab := fldtab[j := p.(fval := env.atof(p.sval), isNum := true)];
        }
        j := j + 1;
      }
    }

    method SplitRecord(r: string) returns (i: nat)
      requires 0 < |fldtab|
      modifies this`fldtab
      ensures i == |Split(env, r)| && Filled(fldtab, old(fldtab), Split(env, r))
    {
      if |env.fs| > 1 {
        i := SplitCut(r);
      } else if env.fs == " " {
        i := SplitBlanks(r);
      } else if env.fs == "" {
        i := SplitLetters(r);
      } else if r != "" {
        i := SplitChunks(r, env.fs[0]);
      } else {
        i := 0;
      }
    }

    /** Cells behind the new fields that earlier records have used are emptied. */
    method Fldbld()
      requires Valid()
      modifies this
      ensures Valid() && donefld && donerec == old(donerec) && View() == old(View()) && |fldtab| >= old(|fldtab|)
    {
      if donefld { return; }
      var r := CellText(0);
      ghost var was := fldtab;
      var i := SplitRecord(r);
      ghost var ts := Split(env, r);
      Cleanfld(i + 1, lastfld);
      lastfld := i;
      donefld := true;
      MarkNumbers(ts);
      nf := lastfld;
      if !donerec { EmptySplits(env, r); }
    }

    /** The loop of `recbld`. */
    method JoinFields() returns (record: string)
      requires lastfld == nf < |fldtab| && AllSound(fldtab) && EmptyBehind(env, fldtab, lastfld)
      modifies this`fldtab
      ensures |fldtab| == old(|fldtab|) && AllSound(fldtab) && EmptyBehind(env, fldtab, lastfld) &&
              fldtab[0] == old(fldtab[0])
      ensures FieldsIn(env, fldtab, lastfld) == old(FieldsIn(env, fldtab, lastfld))
      ensures record == Join(Texts(FieldsIn(env, fldtab, lastfld)), env.ofs)
    {
      ghost var fields := FieldsIn(env, fldtab, lastfld);
      ghost var ts := Texts(fields);
      record := "";
      var i := 1;
      while i <= nf
        invariant 1 <= i <= nf + 1 && |fldtab| == old(|fldtab|) && AllSound(fldtab)
        invariant forall j :: 0 <= j < |fldtab| ==> Held(env, fldtab[j]) == Held(env, old(fldtab)[j])
        invariant fldtab[0] == old(fldtab[0]) && record == Joined(ts, env.ofs, i - 1)
      {
        var p := CellText(i);
        assert p == fields[i - 1].text == ts[i - 1];
        JoinedStep(ts, env.ofs, i);
        record := record + p;
        if i < nf { record := record + env.ofs; }
        i := i + 1;
      }
      assert FieldsIn(env, fldtab, lastfld) == fields;
      JoinedAll(ts, env.ofs);
    }

    method Recbld()
      requires Valid()
      modifies this
      ensures Valid() && donerec && donefld == old(donefld) && View() == old(View()) && |fldtab| == old(|fldtab|)
    {
      if donerec { return; }
      var record := JoinFields();
      ghost var fields := FieldsIn(env, fldtab, lastfld);
      fldtab := fldtab[0 := Text(record)];
      assert FieldsIn(env, fldtab, lastfld) == fields;
      donerec := true;
      if !donefld { EmptySplits(env, ""); }
    }

    // ----- Reads and writes.

    /** `fieldadr`: the table grows, NF does not. */
    method Fieldadr(n: nat)
      requires Valid()
      modifies this`fldtab
      ensures Valid() && n < |fldtab| && View() == old(View())
    {
      if n >= |fldtab| { Growfldtab(n); }
      assert donefld ==> FieldsIn(env, fldtab, lastfld) == old(FieldsIn(env, fldtab, lastfld));
    }

    method Getsval(i: nat) returns (s: string)
      requires Valid() && i < |fldtab|
      modifies this
      ensures Valid() && i < |fldtab| && View() == old(View()) && s == Get(env, View(), i).text
    {
      if i > 0 && !donefld {
        Fldbld();
      } else if i == 0 && !donerec {
        Recbld();
      }
      ghost var was := fldtab;
      s := CellText(i);
      SameView(env, was, fldtab, lastfld);
    }

    method Getfval(i: nat) returns (f: real)
      requires Valid() && i < |fldtab|
      modifies this
      ensures Valid() && i < |fldtab| && View() == old(View()) && f == Get(env, View(), i).number
    {
      if i > 0 && !donefld {
        Fldbld();
      } else if i == 0 && !donerec {
        Recbld();
      }
      ghost var was := fldtab;
      f := CellNumber(i);
      SameView(env, was, fldtab, lastfld);
    }

    /** The part of a write that goes before the cell itself is written. */
    method Touch(i: nat)
      requires Valid() && i < |fldtab| && (i > 0 ==> donefld)
      modifies this
      ensures i < |fldtab| && AllSound(fldtab)
      ensures donefld == (i > 0) && donerec == (i == 0)
      ensures nf == lastfld < |fldtab| && EmptyBehind(env, fldtab, lastfld)
      ensures i > 0 ==> i <= lastfld && FieldsIn(env, fldtab, lastfld) == Pad(env, old(View()).fields, i)
    {
      if i > 0 {
        donerec := false;
        if i > nf { Newfld(i); }
      } else {
        donefld := false;
        donerec := true;
      }
    }

    /** A field is written only when the fields are good; `execute` sees to it. */
    method Setsval(i: nat, s: string)
      requires Valid() && i < |fldtab| && (i > 0 ==> donefld)
      modifies this
      ensures Valid() && i < |fldtab| && (donefld <==> i > 0) && View() == Set(env, old(View()), i, Plain(env, s))
    {
      Touch(i);
      ghost var was := fldtab;
      fldtab := fldtab[i := fldtab[i].(sval := s, isStr := true, isNum := false)];
      if i > 0 { WriteField(env, was, fldtab, lastfld, i, Plain(env, s)); }
    }

    method Setfval(i: nat, f: real)
      requires Valid() && i < |fldtab| && (i > 0 ==> donefld)
      modifies this
      ensures Valid() && i < |fldtab| && (donefld <==> i > 0)
      ensures View() == Set(env, old(View()), i, Value(env.conv(f), f))
    {
      Touch(i);
      ghost var was := fldtab;
      fldtab := fldtab[i := fldtab[i].(fval := f, isStr := false, isNum := true)];
      if i > 0 { WriteField(env, was, fldtab, lastfld, i, Value(env.conv(f), f)); }
    }

    // ----- What a program does with it (awk/run.c).

    /** A reference to `$i`: `execute` brings its side up to date. */
    method Refer(i: nat)
      requires Valid()
      modifies this
      ensures Valid() && i < |fldtab| && View() == old(View()) && (if i > 0 then donefld else donerec)
    {
      Fieldadr(i);
      if i > 0 && !donefld {
        Fldbld();
      } else if i == 0 && !donerec {
        Recbld();
      }
    }

    /** NF. */
    method Getnf() returns (n: nat)
      requires Valid()
      modifies this
      ensures Valid() && View() == old(View()) && n == |View().fields|
    {
      if !donefld { Fldbld(); }
      n := nf;
    }

    /** `assign` from a cell with a text and a number. */
    method PutBoth(i: nat, s: string, f: real)
      requires Valid() && i < |fldtab| && (i > 0 ==> donefld)
      modifies this
      ensures Valid() && View() == Set(env, old(View()), i, Value(s, f))
    {
      Touch(i);
      ghost var was := fldtab;
      fldtab := fldtab[i := Cell(s, f, true, true)];
      if i > 0 { WriteField(env, was, fldtab, lastfld, i, Value(s, f)); }
    }

    /** A new record has been read. */
    method Getrec(s: string)
      requires Valid()
      modifies this
      ensures Valid() && View() == SetRecord(env, Plain(env, s))
    {
      donefld := false;
      donerec := true;
      fldtab := fldtab[0 := Cell(s, if env.isNumber(s) then env.atof(s) else fldtab[0].fval, true, env.isNumber(s))];
    }

    method Perform(op: Op) returns (out: Out)
      requires Valid()
      modifies this
      ensures Valid() && View() == After(env, old(View()), op) && out == Seen(env, old(View()), op)
    {
      out := Nothing;
      match op
      case GetText(i) =>
        Refer(i);
        var s := Getsval(i);
        out := SawText(s);
      case GetNumber(i) =>
        Refer(i);
        var f := Getfval(i);
        out := SawNumber(f);
      case CountFields =>
        var n := Getnf();
        out := SawCount(n);
      case PutText(i, s) =>
        Refer(i);
        Setsval(i, s);
      case PutNumber(i, f) =>
        Refer(i);
        Setfval(i, f);
      case PutTwin(i, s, f) =>
        Refer(i);
        PutBoth(i, s, f);
      case NextRecord(s) =>
        Getrec(s);
    }

    /** MAIN: over any sequence of reads and writes the cache shows what bringing everything up
        to date at every write would show. */
    method PerformAll(ops: seq<Op>) returns (outs: seq<Out>)
      requires Valid()
      modifies this
      ensures Valid() && outs == SeenAll(env, old(View()), ops)
    {
      outs := [];
      ghost var all := SeenAll(env, View(), ops);
      assert ops[0..] == ops;
      var i := 0;
      while i < |ops|
        invariant i <= |ops| && Valid() && all == outs + SeenAll(env, View(), ops[i..])
      {
        SeenStep(env, View(), ops, i, outs);
        var out := Perform(ops[i]);
        outs := outs + [out];
        i := i + 1;
      }
      assert outs + [] == outs;
    }
  }

  lemma SameView(env: Env, was: seq<Cell>, tab: seq<Cell>, n: nat)
    requires n < |was| == |tab| && forall i :: 0 <= i < |was| ==> Held(env, tab[i]) == Held(env, was[i])
    ensures FieldsIn(env, tab, n) == FieldsIn(env, was, n)
  {
  }

  lemma WriteField(env: Env, was: seq<Cell>, tab: seq<Cell>, n: nat, i: nat, v: Value)
    requires 0 < i <= n < |was| == |tab| && Held(env, tab[i]) == v
    requires forall j :: 0 <= j < |was| && j != i ==> tab[j] == was[j]
    ensures FieldsIn(env, tab, n) == FieldsIn(env, was, n)[i - 1 := v]
  {
  }

  /** The first `i` texts, with the separators behind them. */
  function Joined(ts: seq<string>, ofs: string, i: nat): string
    requires i <= |ts|
  {
    if i == 0 then "" else Joined(ts, ofs, i - 1) + (ts[i - 1] + if i < |ts| then ofs else "")
  }

  lemma JoinedStep(ts: seq<string>, ofs: string, i: nat)
    requires 0 < i <= |ts|
    ensures Joined(ts, ofs, i) == if i < |ts| then (Joined(ts, ofs, i - 1) + ts[i - 1]) + ofs
            else Joined(ts, ofs, i - 1) + ts[i - 1]
  {
    assert i < |ts| ==> (Joined(ts, ofs, i - 1) + ts[i - 1]) + ofs == Joined(ts, ofs, i - 1) + (ts[i - 1] + ofs);
    assert ts[i - 1] + "" == ts[i - 1];
  }

  lemma {:induction false} JoinedAll(ts: seq<string>, ofs: string)
    ensures Joined(ts, ofs, |ts|) == Join(ts, ofs)
  {
    JoinedRest(ts, ofs, 0);
    assert ts[0..] == ts && "" + Join(ts, ofs) == Join(ts, ofs);
  }

  lemma {:induction false} JoinedRest(ts: seq<string>, ofs: string, i: nat)
    requires i <= |ts|
    ensures Joined(ts, ofs, |ts|) == Joined(ts, ofs, i) + Join(ts[i..], ofs)
    decreases |ts| - i
  {
    if i == |ts| {
      assert Joined(ts, ofs, i) + "" == Joined(ts, ofs, i);
    } else {
      JoinedRest(ts, ofs, i + 1);
      assert ts[i..][1..] == ts[i + 1..];
      var a, t, b := Joined(ts, ofs, i), ts[i], Join(ts[i + 1..], ofs);
      if i + 1 < |ts| {
        assert (a + (t + ofs)) + b == a + (t + (ofs + b));
      } else {
        assert (a + (t + "")) + b == a + t;
      }
    }
  }

  lemma EmptySplits(env: Env, s: string)
    ensures Split(env, "") == [] && Plains(env, []) == [] && Join([], env.ofs) == ""
  {
  }

  lemma SkipBlanksTwice(r: string)
    ensures Words(SkipBlanks(r)) == Words(r)
  {
    assert SkipBlanks(SkipBlanks(r)) == SkipBlanks(r);
  }

  method WordEnd(r: string) returns (n: nat)
    requires r != "" && !Blank(r[0])
    ensures n == WordLength(r)
  {
    n := 1;
    assert WordLength(r) == 1 + WordLength(r[1..]);
    while n < |r| && !Blank(r[n])
      invariant n <= |r| && WordLength(r) == n + WordLength(r[n..])
    {
      assert r[n..][1..] == r[n + 1..];
      n := n + 1;
    }
  }

  method ChunkEnd(r: string, sep: char) returns (n: nat)
    ensures n == ChunkLength(r, sep)
  {
    n := 0;
    while n < |r| && !Separates(r[n], sep)
      invariant n <= |r| && ChunkLength(r, sep) == n + ChunkLength(r[n..], sep)
    {
      assert r[n..][1..] == r[n + 1..];
      n := n + 1;
    }
  }

  method PastBlanks(s: string) returns (r: string)
    ensures r == SkipBlanks(s)
  {
    r := s;
    while r != "" && Blank(r[0])
      invariant SkipBlanks(r) == SkipBlanks(s)
      decreases r
    {
      r := r[1..];
    }
  }
}
