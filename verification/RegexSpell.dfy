/** Characters and character classes as they are written in a pattern, and what they are read as. */
module RegexSpell {
  import opened RegexTree
  import opened RegexLex

  // ----- Characters.

  /** A digit of a number to the base 16 at most; letters may be capital. */
  datatype Digit = Digit(value: nat, capital: bool)

  /** As it is, behind a backslash, or as a number behind a backslash. */
  datatype Spelling =
    | Bare(c: nat)
    | Escaped(c: nat)
    | HexCode(digits: seq<Digit>)
    | OctalCode(digits: seq<Digit>)

  function DigitText(d: Digit): nat {
    if d.value < 10 then '0' as nat + d.value
    else (if d.capital then 'A' as nat else 'a' as nat) + (d.value - 10)
  }

  function DigitsText(ds: seq<Digit>): seq<nat> {
    if ds == [] then [] else [DigitText(ds[0])] + DigitsText(ds[1..])
  }

  function Text(w: Spelling): (s: seq<nat>)
    ensures w.Bare? ==> s == [w.c]
    ensures !w.Bare? && !(w.OctalCode? && w.digits == []) ==> |s| > 1 && s[0] == '\\' as nat
  {
    match w
    case Bare(c) => [c]
    case Escaped(c) => ['\\' as nat, c]
    case HexCode(ds) => ['\\' as nat, 'x' as nat] + DigitsText(ds)
    case OctalCode(ds) => ['\\' as nat] + DigitsText(ds)
  }

  /** Letters that stand for control characters behind a backslash. */
  function Control(c: nat): nat {
    if c == 't' as nat then '\t' as nat
    else if c == 'n' as nat then '\n' as nat
    else if c == 'r' as nat then '\r' as nat
    else if c == 'f' as nat then 12
    else if c == 'b' as nat then 8
    else c
  }

  function Value(w: Spelling): nat {
    match w
    case Bare(c) => c
    case Escaped(c) => Control(c)
    case HexCode(ds) => HexNumber(ds)
    case OctalCode(ds) => OctalNumber(ds)
  }

  function HexNumber(ds: seq<Digit>): nat {
    match |ds|
    case 0 => 0
    case 1 => ds[0].value
    case _ => 16 * ds[0].value + ds[1].value
  }

  function OctalNumber(ds: seq<Digit>): nat {
    match |ds|
    case 0 => 0
    case 1 => ds[0].value
    case 2 => 8 * ds[0].value + ds[1].value
    case _ => 64 * ds[0].value + 8 * ds[1].value + ds[2].value
  }

  predicate DigitsOf(ds: seq<Digit>, base: nat) {
    forall i :: 0 <= i < |ds| ==> ds[i].value < base
  }

  predicate IsDigitOf(base: nat, c: nat) {
    || (base == 8 && '0' as nat <= c <= '7' as nat)
    || (base == 16 && ('0' as nat <= c <= '9' as nat || 'a' as nat <= c <= 'f' as nat || 'A' as nat <= c <= 'F' as nat))
  }

  /** In front of `next` a number is at its end: it has all its digits, or no digit follows. */
  predicate Ends(ds: seq<Digit>, base: nat, most: nat, next: seq<nat>) {
    DigitsOf(ds, base) && |ds| <= most && (|ds| < most && next != [] ==> !IsDigitOf(base, next[0]))
  }

  predicate Spelled(w: Spelling, next: seq<nat>) {
    match w
    case Bare(c) => c != '\\' as nat
    case Escaped(c) => c != 'x' as nat && !IsDigitOf(8, c)
    case HexCode(ds) => Ends(ds, 16, 2, next)
    case OctalCode(ds) => ds != [] && Ends(ds, 8, 3, next)
  }

  lemma DigitTextIs(d: Digit)
    requires d.value < 16
    ensures var c := DigitText(d); IsHex(c) && HexValue(c) == d.value
    ensures d.value < 8 ==> IsOctal(DigitText(d)) && DigitText(d) - 48 == d.value
  {
  }

  lemma HexStep(d: Digit, s: seq<nat>, k: nat, n: nat)
    requires k > 0 && d.value < 16
    ensures Hex([DigitText(d)] + s, k, n) == Hex(s, k - 1, 16 * n + d.value)
  {
    DigitTextIs(d);
    assert ([DigitText(d)] + s)[1..] == s;
  }

  lemma OctalStep(d: Digit, s: seq<nat>, k: nat, n: nat)
    requires k > 0 && d.value < 8
    ensures Octal([DigitText(d)] + s, k, n) == Octal(s, k - 1, 8 * n + d.value)
  {
    DigitTextIs(d);
    assert ([DigitText(d)] + s)[1..] == s;
  }

  lemma NumberStops(k: nat, n: nat, next: seq<nat>)
    ensures Ends([], 16, k, next) ==> Hex(next, k, n) == (n, next)
    ensures Ends([], 8, k, next) ==> Octal(next, k, n) == (n, next)
  {
  }

  /** The text of digits, one by one. */
  lemma DigitsUnfold(ds: seq<Digit>, next: seq<nat>)
    ensures ds == [] ==> DigitsText(ds) + next == next
    ensures |ds| > 0 ==> DigitsText(ds) + next == [DigitText(ds[0])] + (DigitsText(ds[1..]) + next)
  {
    if ds == [] { assert [] + next == next; }
  }

  lemma HexReads(ds: seq<Digit>, next: seq<nat>)
    requires Ends(ds, 16, 2, next)
    ensures Hex(DigitsText(ds) + next, 2, 0) == (HexNumber(ds), next)
  {
    hide Hex, DigitsText, DigitText;
    DigitsUnfold(ds, next);
    if ds == [] {
      NumberStops(2, 0, next);
    } else {
      var d, more := ds[0].value, ds[1..];
      HexStep(ds[0], DigitsText(more) + next, 2, 0);
      DigitsUnfold(more, next);
      if more == [] {
        NumberStops(1, d, next);
      } else {
        HexStep(more[0], DigitsText(more[1..]) + next, 1, d);
        DigitsUnfold(more[1..], next);
        NumberStops(0, 16 * d + more[0].value, next);
      }
    }
  }

  /** Up to two digits behind the first one. */
  lemma OctalReads(d: nat, more: seq<Digit>, next: seq<nat>)
    requires Ends(more, 8, 2, next)
    ensures Octal(DigitsText(more) + next, 2, d) ==
            (match |more|
             case 0 => d
             case 1 => 8 * d + more[0].value
             case _ => 64 * d + 8 * more[0].value + more[1].value, next)
  {
    hide Octal, DigitsText, DigitText;
    DigitsUnfold(more, next);
    if more == [] {
      NumberStops(2, d, next);
    } else {
      var last := more[1..];
      OctalStep(more[0], DigitsText(last) + next, 2, d);
      DigitsUnfold(last, next);
      if last == [] {
        NumberStops(1, 8 * d + more[0].value, next);
      } else {
        OctalStep(last[0], DigitsText(last[1..]) + next, 1, 8 * d + more[0].value);
        DigitsUnfold(last[1..], next);
        NumberStops(0, 8 * (8 * d + more[0].value) + last[0].value, next);
      }
    }
  }

  lemma QuotedHex(ds: seq<Digit>, next: seq<nat>)
    requires Ends(ds, 16, 2, next)
    ensures Quoted(['x' as nat] + (DigitsText(ds) + next)) == (HexNumber(ds), next)
  {
    hide Hex, Octal, DigitsText, HexNumber;
    assert (['x' as nat] + (DigitsText(ds) + next))[1..] == DigitsText(ds) + next;
    HexReads(ds, next);
  }

  lemma QuotedOctal(ds: seq<Digit>, next: seq<nat>)
    requires ds != [] && Ends(ds, 8, 3, next)
    ensures Quoted([DigitText(ds[0])] + (DigitsText(ds[1..]) + next)) == (OctalNumber(ds), next)
  {
    hide Hex, Octal, DigitsText;
    DigitTextIs(ds[0]);
    assert ([DigitText(ds[0])] + (DigitsText(ds[1..]) + next))[1..] == DigitsText(ds[1..]) + next;
    OctalReads(ds[0].value, ds[1..], next);
  }

  lemma QuotedLetter(c: nat, t: seq<nat>)
    requires c != 'x' as nat && !IsDigitOf(8, c)
    ensures Quoted([c] + t) == (Control(c), t)
  {
    assert ([c] + t)[1..] == t;
  }

  /** What follows a backslash is read as the character that is written. */
  lemma QuotedReads(w: Spelling, next: seq<nat>)
    requires Spelled(w, next) && !w.Bare?
    ensures |Text(w)| > 1 && Text(w)[0] == '\\' as nat && Quoted(Text(w)[1..] + next) == (Value(w), next)
  {
    hide Quoted, Control, HexNumber, OctalNumber, DigitText, DigitsText;
    var s := Text(w)[1..] + next;
    match w
    case Escaped(c) =>
      assert s == [c] + next;
      QuotedLetter(c, next);
    case HexCode(ds) =>
      assert s == ['x' as nat] + (DigitsText(ds) + next);
      QuotedHex(ds, next);
    case OctalCode(ds) =>
      DigitsUnfold(ds, next);
      assert s == DigitsText(ds) + next;
      QuotedOctal(ds, next);
  }

  lemma HexDigitIs(c: nat) returns (d: Digit)
    requires IsHex(c)
    ensures d.value < 16 && d.value == HexValue(c) && DigitText(d) == c
  {
    d := Digit(HexValue(c), c <= 'F' as nat);
  }

  lemma DigitsMore(d: Digit, more: seq<Digit>, next: seq<nat>) returns (ds: seq<Digit>)
    ensures ds == [d] + more && DigitsText(ds) + next == [DigitText(d)] + (DigitsText(more) + next)
  {
    ds := [d] + more;
    assert ds[1..] == more;
  }

  lemma {:induction false} HexSplits(s: seq<nat>, k: nat, n: nat) returns (ds: seq<Digit>)
    requires k <= 2
    ensures Ends(ds, 16, k, Hex(s, k, n).1) && s == DigitsText(ds) + Hex(s, k, n).1
    decreases k
  {
    ds := [];
    if k != 0 && s != [] && IsHex(s[0]) {
      var more := HexSplits(s[1..], k - 1, 16 * n + HexValue(s[0]));
      var d := HexDigitIs(s[0]);
      ds := DigitsMore(d, more, Hex(s, k, n).1);
      assert s == [s[0]] + s[1..];
    }
  }

  lemma {:induction false} OctalSplits(s: seq<nat>, k: nat, n: nat) returns (ds: seq<Digit>)
    requires k <= 2
    ensures Ends(ds, 8, k, Octal(s, k, n).1) && s == DigitsText(ds) + Octal(s, k, n).1
    decreases k
  {
    ds := [];
    if k != 0 && s != [] && IsOctal(s[0]) {
      var more := OctalSplits(s[1..], k - 1, 8 * n + (s[0] - 48));
      ds := DigitsMore(Digit(s[0] - 48, false), more, Octal(s, k, n).1);
      assert s == [s[0]] + s[1..];
    }
  }

  /** Whatever is read behind a backslash is written so. */
  lemma QuotedSplits(s: seq<nat>) returns (w: Spelling)
    requires s != []
    ensures var (v, next) := Quoted(s);
            Spelled(w, next) && !w.Bare? && Value(w) == v && ['\\' as nat] + s == Text(w) + next
  {
    hide Hex, Octal, Quoted, DigitsText, Control, Value;
    var c, t := s[0], s[1..];
    var next;
    assert s == [c] + t;
    if c == 'x' as nat {
      next := Hex(t, 2, 0).1;
      var ds := HexSplits(t, 2, 0);
      w := HexCode(ds);
    } else if IsOctal(c) {
      next := Octal(t, 2, c - 48).1;
      var more := OctalSplits(t, 2, c - 48);
      var ds := DigitsMore(Digit(c - 48, false), more, next);
      w := OctalCode(ds);
    } else {
      next := t;
      w := Escaped(c);
    }
    assert Text(w) + next == ['\\' as nat] + s;
    QuotedReads(w, next);
    assert s == (Text(w) + next)[1..] == Text(w)[1..] + next;
  }
}
