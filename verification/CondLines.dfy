/** Which lines are conditionals, by what is written on them. */
module CondLines {
  import opened CondParse
  import opened CondGrammar
  import opened CondNest
  import opened CondProgram

  predicate Blanks(ws: string) {
    forall i :: 0 <= i < |ws| ==> ws[i] == ' ' || ws[i] == '\t'
  }

  lemma {:induction false} SkipsBlanks(ws: string, s: string)
    requires Blanks(ws) && (s != "" ==> s[0] != ' ' && s[0] != '\t')
    ensures SkipBlanks(ws + s) == s
  {
    if ws == "" {
      assert ws + s == s;
    } else {
      assert (ws + s)[1..] == ws[1..] + s;
      SkipsBlanks(ws[1..], s);
    }
  }

  lemma BeginsIs(s: string, name: string)
    ensures Begins(s, name) <==> name <= s
  {
  }

  /** The condition behind the `n` characters of a directive. */
  function Behind(scan: Scanner, f: Form, s: string, n: nat): Condition
    requires n <= |s|
  {
    EvalExpression(scan(f, s[n..]), false)
  }

  /** The forms of `.if` that a text can begin with. */
  lemma FormIs(s: string, scan: Scanner)
    ensures FirstForm(s, 0) < |FORMS| <==> "if" <= s
    ensures FirstForm(s, 0) < |FORMS| ==>
              ConditionOf(s, FirstForm(s, 0), scan) ==
                if "ifdef" <= s then Behind(scan, IfDef, s, 5)
                else if "ifndef" <= s then Behind(scan, IfNDef, s, 6)
                else if "ifmake" <= s then Behind(scan, IfMake, s, 6)
                else if "ifnmake" <= s then Behind(scan, IfNMake, s, 7)
                else Behind(scan, PlainIf, s, 2)
  {
    hide EvalExpression;
    FormAt(s);
    var j := FirstForm(s, 0);
    assert j < |FORMS| ==> FORMS[j] == [IfDef, IfNDef, IfMake, IfNMake, PlainIf][j];
  }

  lemma FormAt(s: string)
    ensures FirstForm(s, 0) == if "ifdef" <= s then 0 else if "ifndef" <= s then 1 else if "ifmake" <= s then 2
                               else if "ifnmake" <= s then 3 else if "if" <= s then 4 else 5
    ensures ("ifdef" <= s || "ifndef" <= s || "ifmake" <= s || "ifnmake" <= s) ==> "if" <= s
  {
    FormStep(s, 0, "ifdef");
    FormStep(s, 1, "ifndef");
    FormStep(s, 2, "ifmake");
    FormStep(s, 3, "ifnmake");
    FormStep(s, 4, "if");
    if s != "" && |s| > 1 { assert s[..2] == [s[0], s[1]]; }
  }

  lemma FormStep(s: string, i: nat, name: string)
    requires i < |FORMS| && name == ["ifdef", "ifndef", "ifmake", "ifnmake", "if"][i]
    ensures FirstForm(s, i) == if name <= s then i else FirstForm(s, i + 1)
  {
    assert Name(FORMS[i]) == name;
  }

  /** MAIN: what a line says: it is decided by the longest of these words that the text behind the
      blanks begins with, whatever follows it. */
  lemma KindIs(ws: string, s: string, scan: Scanner)
    requires Blanks(ws) && (s != "" ==> s[0] != ' ' && s[0] != '\t')
    ensures Kind(ws + s, scan) ==
            if "else" <= s then Else
            else if "endif" <= s then Endif
            else if "elifdef" <= s then Elif(Behind(scan, IfDef, s, 7))
            else if "elifndef" <= s then Elif(Behind(scan, IfNDef, s, 8))
            else if "elifmake" <= s then Elif(Behind(scan, IfMake, s, 8))
            else if "elifnmake" <= s then Elif(Behind(scan, IfNMake, s, 9))
            else if "elif" <= s then Elif(Behind(scan, PlainIf, s, 4))
            else if "ifdef" <= s then If(Behind(scan, IfDef, s, 5))
            else if "ifndef" <= s then If(Behind(scan, IfNDef, s, 6))
            else if "ifmake" <= s then If(Behind(scan, IfMake, s, 6))
            else if "ifnmake" <= s then If(Behind(scan, IfNMake, s, 7))
            else if "if" <= s then If(Behind(scan, PlainIf, s, 2))
            else Other
  {
    hide SkipBlanks, EvalExpression, FirstForm, ConditionOf, Begins;
    SkipsBlanks(ws, s);
    BeginsIs(s, "el");
    BeginsIs(s, "endif");
    FormIs(s, scan);
    if "el" <= s {
      var t := s[2..];
      BeginsIs(t, "se");
      FormIs(t, scan);
      assert s == "el" + t;
      ElForms(s, t, scan);
    } else {
      NotEl(s);
    }
  }

  /** A directive behind `el`. */
  lemma ElForms(s: string, t: string, scan: Scanner)
    requires s == "el" + t
    ensures ("else" <= s <==> "se" <= t) && ("elif" <= s <==> "if" <= t) && !("if" <= s) && !("endif" <= s)
    ensures ("elifdef" <= s <==> "ifdef" <= t) && ("elifndef" <= s <==> "ifndef" <= t)
    ensures ("elifmake" <= s <==> "ifmake" <= t) && ("elifnmake" <= s <==> "ifnmake" <= t)
    ensures forall n: nat, f :: n <= |t| ==> Behind(scan, f, s, n + 2) == Behind(scan, f, t, n)
    ensures "se" <= t ==> !("if" <= t)
  {
    hide Behind;
    Shifted("else", "se", s, t);
    Shifted("elif", "if", s, t);
    Shifted("elifdef", "ifdef", s, t);
    Shifted("elifndef", "ifndef", s, t);
    Shifted("elifmake", "ifmake", s, t);
    Shifted("elifnmake", "ifnmake", s, t);
    OtherStart(s, t);
    forall n: nat, f | n <= |t| ensures Behind(scan, f, s, n + 2) == Behind(scan, f, t, n) {
      BehindShifted(s, t, scan, f, n);
    }
  }

  lemma OtherStart(s: string, t: string)
    requires s == "el" + t
    ensures !("if" <= s) && !("endif" <= s) && ("se" <= t ==> !("if" <= t))
  {
    assert s[0] == 'e' && s[1] == 'l' && "if"[0] == 'i' && "endif"[1] == 'n' && "se"[0] == 's';
  }

  lemma BehindShifted(s: string, t: string, scan: Scanner, f: Form, n: nat)
    requires s == "el" + t && n <= |t|
    ensures Behind(scan, f, s, n + 2) == Behind(scan, f, t, n)
  {
    hide EvalExpression;
    assert s[n + 2..] == t[n..];
  }

  lemma Shifted(whole: string, x: string, s: string, t: string)
    requires whole == "el" + x && s == "el" + t
    ensures whole <= s <==> x <= t
  {
    if whole <= s { assert forall i :: 0 <= i < |x| ==> x[i] == whole[i + 2] == s[i + 2] == t[i]; }
  }

  lemma NotEl(s: string)
    requires !("el" <= s)
    ensures !("else" <= s) && !("elif" <= s) && !("elifdef" <= s) && !("elifndef" <= s) && !("elifmake" <= s)
    ensures !("elifnmake" <= s)
  {
    if |s| > 1 { assert s[..2] == [s[0], s[1]]; }
  }
}
