/** What awk's fields are, by where the blanks or the separators stand in a record, and what a
    program reads back after it has written a field. */
module AwkSplit {
  import opened AwkFields

  // ----- Words between blanks.

  /** Blanks, tabs and newlines. */
  predicate Gap(s: string) {
    forall i :: 0 <= i < |s| ==> s[i] in " \t\n"
  }

  predicate Solid(s: string) {
    s != "" && forall i :: 0 <= i < |s| ==> s[i] !in " \t\n"
  }

  /** A word with the gap in front of it. */
  datatype Piece = Piece(gap: string, word: string)

  function Spaced(ps: seq<Piece>, end: string): string {
    if ps == [] then end else ps[0].gap + (ps[0].word + Spaced(ps[1..], end))
  }

  function WordsOf(ps: seq<Piece>): seq<string> {
    if ps == [] then [] else [ps[0].word] + WordsOf(ps[1..])
  }

  /** Between two words there is a gap. */
  predicate Apart(ps: seq<Piece>) {
    && (forall i :: 0 <= i < |ps| ==> Gap(ps[i].gap) && Solid(ps[i].word))
    && (forall i :: 0 < i < |ps| ==> ps[i].gap != "")
  }

  lemma {:induction false} SkipsGap(gap: string, s: string)
    requires Gap(gap) && (s != "" ==> s[0] !in " \t\n")
    ensures SkipBlanks(gap + s) == s
  {
    if gap == "" {
      assert gap + s == s;
    } else {
      assert (gap + s)[1..] == gap[1..] + s;
      SkipsGap(gap[1..], s);
    }
  }

  lemma SolidIsWord(w: string)
    requires Solid(w)
    ensures Word(w)
  {
    assert ' ' in " \t\n" && '\t' in " \t\n" && '\n' in " \t\n";
  }

  lemma WordsNext(gap: string, w: string, r: string)
    requires Gap(gap) && Solid(w) && (r != "" ==> r[0] in " \t\n")
    ensures Words(gap + (w + r)) == [w] + Words(r)
  {
    SolidIsWord(w);
    WordFront(w, r);
    SkipsGap(gap, w + r);
    assert (w + r)[..|w|] == w && (w + r)[|w|..] == r;
  }

  /** MAIN: with FS a blank, the fields are the words between the gaps. */
  lemma {:induction false} BlanksSplit(env: Env, ps: seq<Piece>, end: string)
    requires env.fs == " " && Apart(ps) && Gap(end)
    ensures Split(env, Spaced(ps, end)) == WordsOf(ps)
  {
    if ps == [] {
      SkipsGap(end, "");
      assert end + "" == end;
    } else {
      var r := Spaced(ps[1..], end);
      if |ps| > 1 { assert ps[1..][0] == ps[1] && r[0] == ps[1].gap[0]; }
      WordsNext(ps[0].gap, ps[0].word, r);
      BlanksSplit(env, ps[1..], end);
    }
  }

  /** Every record is written so. */
  lemma {:induction false} BlanksPieces(s: string) returns (ps: seq<Piece>, end: string)
    ensures Apart(ps) && Gap(end) && s == Spaced(ps, end)
    ensures s != "" && s[0] !in " \t\n" && ps != [] ==> ps[0].gap == ""
    ensures s != "" && s[0] in " \t\n" && ps != [] ==> ps[0].gap != ""
    decreases |s|
  {
    if s == "" {
      ps, end := [], "";
    } else {
      var more, e := BlanksPieces(s[1..]);
      end := e;
      assert s == [s[0]] + s[1..];
      if s[0] in " \t\n" {
        if more == [] {
          ps, end := [], [s[0]] + e;
        } else {
          ps := [Piece([s[0]] + more[0].gap, more[0].word)] + more[1..];
          assert ps[1..] == more[1..];
        }
      } else if more != [] && more[0].gap == "" {
        ps := [Piece("", [s[0]] + more[0].word)] + more[1..];
        assert ps[1..] == more[1..];
      } else {
        ps := [Piece("", [s[0]])] + more;
        assert ps[1..] == more;
      }
    }
  }

  // ----- Chunks between separators.

  /** A chunk with the separator behind it. */
  datatype Cell = Cell(chunk: string, sep: char)

  function Separated(cs: seq<Cell>, last: string): string {
    if cs == [] then last else cs[0].chunk + ([cs[0].sep] + Separated(cs[1..], last))
  }

  function ChunksOf(cs: seq<Cell>, last: string): seq<string> {
    if cs == [] then [last] else [cs[0].chunk] + ChunksOf(cs[1..], last)
  }

  predicate Without(s: string, fs: char) {
    forall i :: 0 <= i < |s| ==> s[i] != fs && s[i] != '\n'
  }

  predicate Cut(cs: seq<Cell>, fs: char) {
    forall i :: 0 <= i < |cs| ==> Without(cs[i].chunk, fs) && (cs[i].sep == fs || cs[i].sep == '\n')
  }

  lemma ChunksNext(c: string, sep: char, more: string, fs: char)
    requires Without(c, fs) && (sep == fs || sep == '\n')
    ensures Chunks(c + ([sep] + more), fs) == [c] + Chunks(more, fs)
  {
    ChunkFront(c, fs, [sep] + more);
    TakeDrop(c, sep, more);
  }

  /** MAIN: with another single character for FS, the fields are the chunks between its occurrences
      and newlines; an empty record has none. */
  lemma {:induction false} SeparatorSplits(env: Env, cs: seq<Cell>, last: string)
    requires |env.fs| == 1 && env.fs != " " && Without(last, env.fs[0])
    requires Cut(cs, env.fs[0])
    ensures Split(env, Separated(cs, last)) == if cs == [] && last == "" then [] else ChunksOf(cs, last)
  {
    ChunksAre(env.fs[0], cs, last);
    if cs != [] { assert Separated(cs, last) != ""; }
  }

  lemma {:induction false} ChunksAre(fs: char, cs: seq<Cell>, last: string)
    requires Without(last, fs)
    requires Cut(cs, fs)
    ensures Chunks(Separated(cs, last), fs) == ChunksOf(cs, last)
  {
    if cs == [] {
      ChunksOne(last, fs);
    } else {
      ChunksNext(cs[0].chunk, cs[0].sep, Separated(cs[1..], last), fs);
      ChunksAre(fs, cs[1..], last);
    }
  }

  /** Every record is written so. */
  lemma {:induction false} SeparatorCells(fs: char, s: string) returns (cs: seq<Cell>, last: string)
    ensures Cut(cs, fs) && Without(last, fs) && s == Separated(cs, last)
  {
    if s == "" {
      cs, last := [], "";
    } else {
      cs, last := SeparatorCells(fs, s[1..]);
      assert s == [s[0]] + s[1..];
      if s[0] == fs || s[0] == '\n' {
        cs := CellFirst(Cell("", s[0]), cs, last);
      } else if cs == [] {
        last := [s[0]] + last;
      } else {
        cs := CellFirst(Cell([s[0]] + cs[0].chunk, cs[0].sep), cs[1..], last);
      }
    }
  }

  lemma CellFirst(c: Cell, more: seq<Cell>, last: string) returns (cs: seq<Cell>)
    ensures cs == [c] + more && Separated(cs, last) == c.chunk + ([c.sep] + Separated(more, last))
  {
    cs := [c] + more;
    assert cs[1..] == more;
  }

  /** With FS empty, the fields are the characters. */
  lemma {:induction false} LettersSplit(env: Env, s: string)
    requires env.fs == ""
    ensures |Split(env, s)| == |s| && forall i :: 0 <= i < |s| ==> Split(env, s)[i] == [s[i]]
  {
    if s != "" { LettersSplit(env, s[1..]); }
  }

  /** With FS longer, the regular expression cuts every record but the empty one. */
  lemma ExpressionSplits(env: Env, s: string)
    requires |env.fs| >= 2
    ensures Split(env, s) == if |s| == 0 then [] else env.cut(s)
  {
  }

  // ----- Reading what was written.

  /** MAIN: what is seen of `$i` right behind a write: a text with its number, a number as it is
      converted, or both as they were written; and of a new record. */
  lemma WriteSeen(env: Env, e: Eager, i: nat, s: string, f: real)
    ensures var e' := After(env, e, PutText(i, s));
            Seen(env, e', GetText(i)) == SawText(s) && Seen(env, e', GetNumber(i)) == SawNumber(env.atof(s))
    ensures var e' := After(env, e, PutNumber(i, f));
            Seen(env, e', GetText(i)) == SawText(env.conv(f)) && Seen(env, e', GetNumber(i)) == SawNumber(f)
    ensures var e' := After(env, e, PutTwin(i, s, f));
            Seen(env, e', GetText(i)) == SawText(s) && Seen(env, e', GetNumber(i)) == SawNumber(f)
    ensures var e' := After(env, e, NextRecord(s));
            && Seen(env, e', GetText(0)) == SawText(s) && Seen(env, e', GetNumber(0)) == SawNumber(env.atof(s))
            && Seen(env, e', CountFields) == SawCount(|Split(env, s)|)
  {
  }

  /** MAIN: a field that is written is read back; the other fields stay, those that are passed over
      are empty; `$0` is the texts of all fields with OFS between them, and its number is theirs. */
  lemma FieldWritten(env: Env, e: Eager, i: nat, v: Value, j: nat)
    requires i > 0 && j > 0
    ensures var e' := Set(env, e, i, v);
            && Get(env, e', j) == (if j == i then v else Get(env, e, j))
            && |e'.fields| == (if i < |e.fields| then |e.fields| else i)
            && e'.record == Value(Join(Texts(e'.fields), env.ofs), env.atof(Join(Texts(e'.fields), env.ofs)))
  {
  }

  /** A record that is written is read back, and its fields are those of its text, with their numbers. */
  lemma RecordWritten(env: Env, e: Eager, v: Value, j: nat)
    requires j > 0
    ensures var e', ts := Set(env, e, 0, v), Split(env, v.text);
            && Get(env, e', 0) == v && |e'.fields| == |ts|
            && Get(env, e', j).text == (if j <= |ts| then ts[j - 1] else "")
            && Get(env, e', j).number == env.atof(Get(env, e', j).text)
  {
  }

  lemma {:induction false} JoinMore(ts: seq<string>, t: string, ofs: string)
    ensures Join(ts + [t], ofs) == if ts == [] then t else Join(ts, ofs) + (ofs + t)
  {
    if |ts| == 1 {
      assert (ts + [t])[1..] == [t];
    } else if ts != [] {
      assert (ts + [t])[1..] == ts[1..] + [t];
      JoinMore(ts[1..], t, ofs);
    } else {
      assert ts + [t] == [t];
    }
  }
}
