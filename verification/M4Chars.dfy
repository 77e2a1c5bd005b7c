/** Numbers and character constants of m4 as written down. */
module M4Chars {
  import opened M4Eval

  lemma Assoc(a: string, b: string, c: string)
    ensures (a + b) + c == a + (b + c)
  {
  }

  // ----- Digits.

  function Base(digits: string): int {
    if digits != "" && digits[0] == '0' then 8 else 10
  }

  predicate AllDigits(digits: string, base: int) {
    forall i :: 0 <= i < |digits| ==> IsDigit(digits[i], base)
  }

  predicate StopsDigits(r: string, base: int) {
    r == "" || !IsDigit(r[0], base)
  }

  lemma {:induction false} DigitsStop(digits: string, base: int, v: int, r: string)
    requires base == 8 || base == 10
    requires AllDigits(digits, base) && StopsDigits(r, base)
    ensures Digits(digits + r, base, v) == (Digits(digits, base, v).0, r)
  {
    if digits == "" {
      assert digits + r == r;
    } else {
      assert (digits + r)[1..] == digits[1..] + r;
      DigitsStop(digits[1..], base, Word(Word(v * base) + (digits[0] as int - '0' as int)), r);
    }
  }

  lemma {:induction false} DigitsSplit(s: string, base: int, v: int) returns (ds: string)
    requires base == 8 || base == 10
    ensures s == ds + Digits(s, base, v).1 && Digits(ds, base, v) == (Digits(s, base, v).0, "")
    ensures AllDigits(ds, base) && StopsDigits(Digits(s, base, v).1, base)
    ensures s != "" && IsDigit(s[0], base) ==> ds != "" && ds[0] == s[0]
  {
    if s != "" && IsDigit(s[0], base) {
      var u := Word(Word(v * base) + (s[0] as int - '0' as int));
      var more := DigitsSplit(s[1..], base, u);
      ds := [s[0]] + more;
      assert ds[1..] == more;
      Assoc([s[0]], more, Digits(s, base, v).1);
      assert s == [s[0]] + s[1..];
    } else {
      ds := "";
    }
  }

  // ----- The characters of a constant.

  /** A character as it is, one behind a backslash, or its number behind a backslash. */
  datatype Item = Plain(c: char) | Escaped(c: char) | Code(digits: string)

  function ItemText(x: Item): string {
    match x
    case Plain(c) => [c]
    case Escaped(c) => ['\\', c]
    case Code(digits) => ['\\'] + digits
  }

  function ItemValue(x: Item): int {
    match x
    case Plain(c) => c as int
    case Escaped(c) => Escape(c)
    case Code(digits) => Digits(digits, Base(digits), 0).0 % 256
  }

  function ItemsText(items: seq<Item>): string {
    if items == [] then "" else ItemText(items[0]) + ItemsText(items[1..])
  }

  /** The first character is the lowest byte. */
  function ItemsValue(items: seq<Item>): int {
    if items == [] then 0 else Word(Word(ItemsValue(items[1..]) * 256) + ItemValue(items[0]))
  }

  /** A number begins with an octal digit, is octal behind a 0, and goes on as long as there are
      digits. */
  predicate ItemOk(x: Item, next: string) {
    match x
    case Plain(c) => c != '\'' && c != '\\'
    case Escaped(c) => !IsDigit(c, 8)
    case Code(digits) =>
      digits != "" && IsDigit(digits[0], 8) && AllDigits(digits, Base(digits)) && StopsDigits(next, Base(digits))
  }

  predicate ItemsOk(items: seq<Item>) {
    items == [] || (ItemOk(items[0], ItemsText(items[1..]) + "'") && ItemsOk(items[1..]))
  }

  lemma ReadsItem(x: Item, s: string)
    requires ItemOk(x, s)
    ensures ReadChar(ItemText(x) + s) == One(ItemValue(x), s) && !Begins(ItemText(x) + s, '\'')
  {
    var t := ItemText(x) + s;
    assert t[0] == ItemText(x)[0] && (x.Escaped? ==> t[1] == x.c);
    if x.Code? {
      assert t[1..] == x.digits + s && t[1] == x.digits[0];
      DigitsStop(x.digits, Base(x.digits), 0, s);
    }
  }

  lemma SameNext(x: Item, next: string, s: string)
    requires ItemOk(x, next) && next != "" && s != "" && s[0] == next[0]
    ensures ItemOk(x, s)
  {
  }

  lemma OneMore(s: string, n: nat, c: int, rest: string)
    requires n > 0 && !Begins(s, '\'') && ReadChar(s) == One(c, rest)
    ensures var p := Quoted(rest, n - 1);
            Quoted(s, n) == match p case Err(e) => Err(e) case Ok(v, r) => Ok(Word(Word(v * 256) + c), r)
  {
  }

  lemma {:induction false} ReadsItems(items: seq<Item>, n: nat, r: string)
    requires ItemsOk(items) && |items| <= n <= 4 && (items == [] ==> n < 4)
    ensures Quoted(ItemsText(items) + ("'" + r), n) == Ok(ItemsValue(items), r)
    decreases n
  {
    hide ReadChar, ItemOk, ItemValue, ItemText;
    if items == [] {
      assert "" + ("'" + r) == "'" + r && ("'" + r)[1..] == r;
    } else {
      var more := ItemsText(items[1..]);
      var s := more + ("'" + r);
      assert s[0] == (more + "'")[0];
      SameNext(items[0], more + "'", s);
      ReadsItem(items[0], s);
      Assoc(ItemText(items[0]), more, "'" + r);
      ReadsItems(items[1..], n - 1, r);
      OneMore(ItemText(items[0]) + s, n, ItemValue(items[0]), s);
    }
  }

  lemma ReadCharSplit(s: string) returns (x: Item)
    requires s != "" && s[0] != '\'' && ReadChar(s).One?
    ensures ItemOk(x, ReadChar(s).rest) && s == ItemText(x) + ReadChar(s).rest && ItemValue(x) == ReadChar(s).v
  {
    assert s == [s[0]] + s[1..];
    if s[0] != '\\' {
      x := Plain(s[0]);
    } else {
      assert s[1..] == [s[1]] + s[2..];
      if IsDigit(s[1], 8) {
        var ds := DigitsSplit(s[1..], if s[1] == '0' then 8 else 10, 0);
        x := Code(ds);
        Assoc([s[0]], ds, ReadChar(s).rest);
      } else {
        x := Escaped(s[1]);
        assert s == ['\\', s[1]] + s[2..];
      }
    }
  }

  lemma {:induction false} QuotedSplit(s: string, n: nat) returns (items: seq<Item>)
    requires n <= 4 && Quoted(s, n).Ok?
    ensures ItemsOk(items) && |items| <= n && (n == 4 ==> items != [])
    ensures ItemsValue(items) == Quoted(s, n).v && s == ItemsText(items) + ("'" + Quoted(s, n).rest)
    decreases n
  {
    hide ReadChar, ItemOk, ItemValue, ItemText;
    if n > 0 && !Begins(s, '\'') {
      var x := ReadCharSplit(s);
      var rest := ReadChar(s).rest;
      var more := QuotedSplit(rest, n - 1);
      items := [x] + more;
      assert items[1..] == more;
      var r := "'" + Quoted(s, n).rest;
      assert rest == ItemsText(more) + r && rest[0] == (ItemsText(more) + "'")[0];
      SameNext(x, rest, ItemsText(more) + "'");
      Assoc(ItemText(x), ItemsText(more), r);
    } else {
      items := [];
      assert s == [s[0]] + s[1..];
      assert "" + ("'" + s[1..]) == "'" + s[1..];
    }
  }

  // ----- Characters collected one by one, and put together from the last one on.

  function Assemble(v: seq<int>, w: int): int {
    if v == [] then w else Word(Word(Assemble(v[1..], w) * 256) + v[0])
  }

  lemma {:induction false} AssembleMore(v: seq<int>, c: int, w: int)
    ensures Assemble(v + [c], w) == Assemble(v, Word(Word(w * 256) + c))
  {
    if v == [] {
      assert [] + [c] == [c] && [c][1..] == [];
    } else {
      assert (v + [c])[1..] == v[1..] + [c];
      AssembleMore(v[1..], c, w);
    }
  }

  /** The characters `v` in front of what `p` has read. */
  function Collected(v: seq<int>, p: Parsed): Parsed {
    match p case Err(e) => Err(e) case Ok(w, rest) => Ok(Assemble(v, w), rest)
  }

  lemma CollectedMore(v: seq<int>, s: string, n: nat, c: int, rest: string)
    requires n > 0 && !Begins(s, '\'') && ReadChar(s) == One(c, rest)
    ensures Collected(v, Quoted(s, n)) == Collected(v + [c], Quoted(rest, n - 1))
  {
    hide Quoted, ReadChar, Assemble;
    OneMore(s, n, c, rest);
    var p := Quoted(rest, n - 1);
    if p.Ok? { AssembleMore(v, c, p.v); }
  }

  lemma CollectedNone(p: Parsed)
    ensures Collected([], p) == p
  {
  }

  lemma PastFails(s: string, n: nat)
    requires n > 0 && !Begins(s, '\'') && ReadChar(s) == Past
    ensures Quoted(s, n) == Err(Overrun)
  {
  }

  lemma CollectedEnd(v: seq<int>, s: string, n: nat)
    requires n <= 4 && (n == 0 || Begins(s, '\''))
    ensures Collected(v, Quoted(s, n)) ==
            if n < 4 && Begins(s, '\'') then Ok(Assemble(v, 0), s[1..]) else Err(BadCharacter)
  {
  }
}
