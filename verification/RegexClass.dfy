/** Character classes as they are written between brackets, and which characters they list. */
module RegexClass {
  import opened RegexTree
  import opened RegexLex
  import opened RegexSpell

  // ----- Where the text of a class ends.

  /** Characters, perhaps behind backslashes, with no bracket that closes the class and no newline. */
  predicate Inside(raw: seq<nat>)
    decreases |raw|
  {
    raw != [] ==>
      if raw[0] == '\\' as nat then |raw| > 1 && Inside(raw[2..])
      else raw[0] != ']' as nat && raw[0] != '\n' as nat && Inside(raw[1..])
  }

  /** The first character may be a closing bracket. */
  predicate ClassOf(raw: seq<nat>) {
    && raw != []
    && if raw[0] == '\\' as nat then |raw| > 1 && Inside(raw[2..])
       else raw[0] != '\n' as nat && Inside(raw[1..])
  }

  lemma {:induction false} InsideReads(raw: seq<nat>, buf: seq<nat>, r: seq<nat>)
    requires Inside(raw) && buf != []
    ensures ClassText(raw + ([']' as nat] + r), buf) == Ok((buf + raw, r))
    decreases |raw|
  {
    var tail := [']' as nat] + r;
    var s := raw + tail;
    if raw == [] {
      assert s == tail && tail[1..] == r && buf + [] == buf;
    } else if raw[0] == '\\' as nat {
      var c := raw[1];
      assert s[2..] == raw[2..] + tail && raw == ['\\' as nat, c] + raw[2..];
      InsideReads(raw[2..], buf + [s[0], s[1]], r);
      assert (buf + [s[0], s[1]]) + raw[2..] == buf + raw;
    } else {
      assert s[1..] == raw[1..] + tail && raw == [s[0]] + raw[1..];
      InsideReads(raw[1..], buf + [s[0]], r);
      assert (buf + [s[0]]) + raw[1..] == buf + raw;
    }
  }

  /** The text of a class ends at the first bracket that can close it. */
  lemma ClassReads(raw: seq<nat>, r: seq<nat>)
    requires ClassOf(raw)
    ensures ClassText(raw + ([']' as nat] + r), []) == Ok((raw, r))
  {
    var tail := [']' as nat] + r;
    var s := raw + tail;
    if raw[0] == '\\' as nat {
      assert s[2..] == raw[2..] + tail && raw == ['\\' as nat, s[1]] + raw[2..];
      InsideReads(raw[2..], ['\\' as nat, s[1]], r);
      assert [] + [BACKSLASH, s[1]] == ['\\' as nat, s[1]];
    } else {
      assert s[1..] == raw[1..] + tail && raw == [s[0]] + raw[1..];
      InsideReads(raw[1..], [s[0]], r);
      assert [] + [s[0]] == [s[0]];
    }
  }

  lemma EscapedInside(c: nat, more: seq<nat>, s: seq<nat>, r: seq<nat>)
    requires |s| > 1 && s[0] == '\\' as nat && s[1] == c && s[2..] == more + ([']' as nat] + r) && Inside(more)
    ensures var raw := ['\\' as nat, c] + more; Inside(raw) && ClassOf(raw) && s == raw + ([']' as nat] + r)
  {
    var raw := ['\\' as nat, c] + more;
    assert raw[2..] == more && s == [s[0], s[1]] + s[2..];
  }

  lemma CharacterInside(c: nat, more: seq<nat>, s: seq<nat>, r: seq<nat>)
    requires s != [] && s[0] == c && s[1..] == more + ([']' as nat] + r) && Inside(more)
    requires c != '\\' as nat && c != '\n' as nat
    ensures var raw := [c] + more;
            ClassOf(raw) && (c != ']' as nat ==> Inside(raw)) && s == raw + ([']' as nat] + r)
  {
    var raw := [c] + more;
    assert raw[1..] == more && s == [s[0]] + s[1..];
  }

  lemma {:induction false} InsideSplits(s: seq<nat>, buf: seq<nat>) returns (raw: seq<nat>)
    requires buf != [] && ClassText(s, buf).Ok?
    ensures var (b, r) := ClassText(s, buf).value; Inside(raw) && b == buf + raw && s == raw + ([']' as nat] + r)
    decreases |s|
  {
    hide Inside, ClassOf;
    var r := ClassText(s, buf).value.1;
    if s[0] == BACKSLASH {
      var more := InsideSplits(s[2..], buf + [BACKSLASH, s[1]]);
      raw := ['\\' as nat, s[1]] + more;
      EscapedInside(s[1], more, s, r);
    } else if s[0] == RBRACKET {
      raw := [];
      NothingInside(s, r);
    } else {
      var more := InsideSplits(s[1..], buf + [s[0]]);
      raw := [s[0]] + more;
      CharacterInside(s[0], more, s, r);
    }
  }

  lemma NothingInside(s: seq<nat>, r: seq<nat>)
    requires s != [] && s[0] == ']' as nat && r == s[1..]
    ensures Inside([]) && s == [] + ([']' as nat] + r)
  {
  }

  lemma ClassSplits(s: seq<nat>) returns (raw: seq<nat>)
    requires ClassText(s, []).Ok?
    ensures var (b, r) := ClassText(s, []).value; ClassOf(raw) && b == raw && s == raw + ([']' as nat] + r)
  {
    hide Inside, ClassOf;
    var r := ClassText(s, []).value.1;
    if s[0] == BACKSLASH {
      assert [] + [BACKSLASH, s[1]] == ['\\' as nat, s[1]];
      var more := InsideSplits(s[2..], ['\\' as nat, s[1]]);
      raw := ['\\' as nat, s[1]] + more;
      EscapedInside(s[1], more, s, r);
    } else {
      assert [] + [s[0]] == [s[0]];
      var more := InsideSplits(s[1..], [s[0]]);
      raw := [s[0]] + more;
      CharacterInside(s[0], more, s, r);
    }
  }

  // ----- Which characters a class lists.

  /** A character or a range of characters. */
  datatype Item = One(w: Spelling) | Range(lo: Spelling, hi: Spelling)

  function ItemText(x: Item): seq<nat> {
    match x
    case One(w) => Text(w)
    case Range(lo, hi) => Text(lo) + (['-' as nat] + Text(hi))
  }

  function ItemsText(items: seq<Item>): seq<nat> {
    if items == [] then [] else ItemText(items[0]) + ItemsText(items[1..])
  }

  /** A minus is written as it is only in the first place, or alone in the last one. */
  predicate MinusOk(w: Spelling, first: bool) {
    w == Bare('-' as nat) ==> first
  }

  predicate Items(items: seq<Item>, first: bool) {
    items != [] ==>
      var next := ItemsText(items[1..]);
      && Items(items[1..], false)
      && match items[0]
         case One(w) => Spelled(w, next) && MinusOk(w, first || next == [])
         case Range(lo, hi) =>
           Spelled(lo, ['-' as nat] + (Text(hi) + next)) && Spelled(hi, next) && MinusOk(lo, first)
  }

  function Through(lo: nat, hi: nat): seq<nat>
    decreases hi + 1 - lo
  {
    if lo > hi then [] else [lo] + Through(lo + 1, hi)
  }

  /** A character is kept in a byte. A NUL ends the class, also one that a range comes by behind 255. */
  function Listed(items: seq<Item>): seq<nat> {
    if items == [] then []
    else
      match items[0]
      case One(w) =>
        var b := Value(w) % 256;
        if b == 0 then [] else [b] + Listed(items[1..])
      case Range(lo, hi) =>
        var b := Value(lo) % 256;
        if b == 0 then []
        else if Value(hi) < 256 then Through(b, Value(hi)) + Listed(items[1..])
        else Through(b, 255)
  }

  predicate Lists(x: Item, c: nat) {
    match x
    case One(w) => c == Value(w) % 256
    case Range(lo, hi) => 0 < Value(lo) % 256 <= c <= Value(hi)
  }

  /** Items behind this one are not read. */
  predicate Cuts(x: Item) {
    match x
    case One(w) => Value(w) % 256 == 0
    case Range(lo, hi) => Value(lo) % 256 == 0 || Value(hi) >= 256
  }

  lemma {:induction false} InThrough(lo: nat, hi: nat, c: nat)
    ensures c in Through(lo, hi) <==> lo <= c <= hi
    decreases hi + 1 - lo
  {
    if lo <= hi { InThrough(lo + 1, hi, c); }
  }

  /** An item lists the character, and none in front of it ends the class. */
  ghost predicate Named(items: seq<Item>, c: nat) {
    exists i :: 0 <= i < |items| && Lists(items[i], c) && forall j :: 0 <= j < i ==> !Cuts(items[j])
  }

  lemma {:induction false} ListedIff(items: seq<Item>, c: nat)
    ensures c in Listed(items) <==> 0 < c < 256 && Named(items, c)
  {
    if items != [] {
      ListedIff(items[1..], c);
      NamedLater(items, c);
      match items[0]
      case One(w) =>
      case Range(lo, hi) => InThrough(Value(lo) % 256, if Value(hi) < 256 then Value(hi) else 255, c);
    }
  }

  lemma NamedLater(items: seq<Item>, c: nat)
    requires items != []
    ensures Named(items, c) <==> Lists(items[0], c) || (!Cuts(items[0]) && Named(items[1..], c))
  {
    if i :| 0 <= i < |items| && Lists(items[i], c) && forall j :: 0 <= j < i ==> !Cuts(items[j]) {
      if i > 0 {
        assert items[1..][i - 1] == items[i];
        assert forall j :: 0 <= j < i - 1 ==> items[1..][j] == items[j + 1];
        assert !Cuts(items[0]) && Named(items[1..], c);
      }
    }
    if !Cuts(items[0]) {
      if i :| 0 <= i < |items| - 1 && Lists(items[1..][i], c) && forall j :: 0 <= j < i ==> !Cuts(items[1..][j]) {
        assert forall j :: 0 < j < i + 1 ==> items[j] == items[1..][j - 1];
        assert Lists(items[i + 1], c);
      }
    }
  }

  // ----- How a class is written out.

  lemma Assoc(a: seq<nat>, b: seq<nat>, c: seq<nat>)
    ensures (a + b) + c == a + (b + c)
  {
  }

  lemma CharReads(w: Spelling, next: seq<nat>)
    requires Spelled(w, next)
    ensures ClassChar(Text(w) + next) == (Value(w), next)
  {
    hide Quoted;
    var p := Text(w) + next;
    if w.Bare? {
      assert p[1..] == next;
    } else {
      QuotedReads(w, next);
      assert p[1..] == Text(w)[1..] + next;
    }
  }

  lemma ExpandOne(p: seq<nat>, buf: seq<nat>, v: nat, rest: seq<nat>)
    requires p != [] && !IsRange(p, buf) && ClassChar(p) == (v, rest)
    ensures Expand(p, buf) == Expand(rest, AddByte(buf, v))
  {
    hide ClassChar, IsRange, AddByte;
  }

  lemma ExpandRange(p: seq<nat>, buf: seq<nat>, hi: nat, rest: seq<nat>)
    requires p != [] && IsRange(p, buf) && ClassChar(p[1..]) == (hi, rest)
    ensures Expand(p, buf) == Expand(rest, AddRange(buf, hi))
  {
    hide ClassChar, AddRange;
  }

  /** One character, where a minus begins no range. */
  lemma ExpandChar(w: Spelling, next: seq<nat>, buf: seq<nat>)
    requires Spelled(w, next) && (w == Bare('-' as nat) ==> buf == [] || next == [])
    ensures Expand(Text(w) + next, buf) == Expand(next, buf + [Value(w) % 256])
  {
    hide Expand, ClassChar;
    CharReads(w, next);
    ExpandOne(Text(w) + next, buf, Value(w), next);
  }

  lemma ExpandMinus(hi: Spelling, next: seq<nat>, buf: seq<nat>)
    requires Spelled(hi, next) && buf != [] && buf[|buf| - 1] != 0
    ensures Expand(['-' as nat] + (Text(hi) + next), buf) == Expand(next, AddRange(buf, Value(hi)))
  {
    hide Expand, ClassChar, AddRange;
    var p := ['-' as nat] + (Text(hi) + next);
    assert p[1..] == Text(hi) + next;
    CharReads(hi, next);
    ExpandRange(p, buf, Value(hi), next);
  }

  lemma {:induction false} UptoIs(c: nat, hi: nat)
    requires hi < 256
    ensures Upto(c, hi) == Through(c + 1, hi)
    decreases hi - c
  {
    if c < hi { UptoIs(c + 1, hi); }
  }

  lemma {:induction false} UptoOver(c: nat, hi: nat) returns (more: seq<nat>)
    requires c < 256 <= hi
    ensures Upto(c, hi) == Through(c + 1, 255) + ([0] + more)
    decreases hi - c
  {
    if c == 255 {
      more := Upto(256, hi);
      assert Through(256, 255) == [] && [] + ([0] + more) == [0] + more;
    } else {
      more := UptoOver(c + 1, hi);
      Assoc([c + 1], Through(c + 2, 255), [0] + more);
    }
  }

  lemma {:induction false} StringStays(s: seq<nat>)
    requires 0 !in s
    ensures CString(s) == s
  {
    if s != [] { StringStays(s[1..]); }
  }

  lemma {:induction false} StringEnds(s: seq<nat>, more: seq<nat>)
    requires 0 !in s
    ensures CString(s + ([0] + more)) == s
  {
    var t := s + ([0] + more);
    if s == [] {
      assert t[0] == 0;
    } else {
      assert t[1..] == s[1..] + ([0] + more);
      StringEnds(s[1..], more);
    }
  }

  /** Behind a NUL nothing changes what the class is. */
  lemma {:induction false} NulEnds(p: seq<nat>, s: seq<nat>, more: seq<nat>)
    requires 0 !in s
    ensures CString(Expand(p, s + ([0] + more))) == s
    decreases |p|
  {
    hide ClassChar, Upto;
    var buf := s + ([0] + more);
    if p == [] {
      StringEnds(s, more);
    } else if IsRange(p, buf) {
      var (hi, rest) := ClassChar(p[1..]);
      assert more != [] && buf[|buf| - 1] == more[|more| - 1];
      var n := |more| - 1;
      if more[n] > hi {
        assert buf[..|buf| - 1] == s + ([0] + more[..n]);
        NulEnds(rest, s, more[..n]);
      } else {
        NulAppend(s, more, Upto(more[n], hi));
        NulEnds(rest, s, more + Upto(more[n], hi));
      }
    } else {
      var (c, rest) := ClassChar(p);
      NulAppend(s, more, [c % 256]);
      NulEnds(rest, s, more + [c % 256]);
    }
  }

  lemma NulAppend(s: seq<nat>, more: seq<nat>, x: seq<nat>)
    ensures (s + ([0] + more)) + x == s + ([0] + (more + x))
  {
  }

  /** A range behind its lower end, which is a character `b` already written out. */
  lemma RangeWritten(lo: nat, hi: nat, buf: seq<nat>, next: seq<nat>)
    requires 0 < lo < 256 && 0 !in buf
    ensures hi < 256 ==> AddRange(buf + [lo], hi) == buf + Through(lo, hi)
    ensures hi >= 256 ==> CString(Expand(next, AddRange(buf + [lo], hi))) == buf + Through(lo, 255)
  {
    hide Expand, Upto, CString;
    var b := buf + [lo];
    if lo > hi {
      assert b[..|b| - 1] == buf && buf + [] == buf;
    } else if hi < 256 {
      UptoIs(lo, hi);
      Assoc(buf, [lo], Through(lo + 1, hi));
    } else {
      var more := UptoOver(lo, hi);
      ThroughNoNul(lo, 255);
      Assoc(buf, [lo], Through(lo + 1, 255));
      Assoc(b, Through(lo + 1, 255), [0] + more);
      NulEnds(next, buf + Through(lo, 255), more);
    }
  }

  lemma ThroughNoNul(lo: nat, hi: nat)
    requires lo > 0
    ensures 0 !in Through(lo, hi)
  {
    InThrough(lo, hi, 0);
  }

  lemma {:induction false} ExpandItems(items: seq<Item>, first: bool, buf: seq<nat>)
    requires Items(items, first) && 0 !in buf && (first ==> buf == [])
    ensures CString(Expand(ItemsText(items), buf)) == buf + Listed(items)
    decreases items, 1
  {
    if items == [] {
      StringStays(buf);
      assert buf + [] == buf;
    } else {
      hide Expand, Spelled, Value;
      var next := ItemsText(items[1..]);
      match items[0]
      case One(w) => ExpandFirst(w, next, items, first, buf);
      case Range(lo, hi) => ExpandFirstRange(lo, hi, next, items, first, buf);
    }
  }

  lemma {:induction false} ExpandFirst(w: Spelling, next: seq<nat>, items: seq<Item>, first: bool, buf: seq<nat>)
    requires Items(items, first) && 0 !in buf && (first ==> buf == []) && items != [] && items[0] == One(w)
    requires next == ItemsText(items[1..])
    ensures CString(Expand(ItemsText(items), buf)) == buf + Listed(items)
    decreases items, 0
  {
    hide Expand, Spelled, Value, CString;
    var b := Value(w) % 256;
    ExpandChar(w, next, buf);
    if b == 0 {
      assert [0] + [] == [0] && buf + [] == buf;
      NulEnds(next, buf, []);
    } else {
      ExpandItems(items[1..], false, buf + [b]);
      Assoc(buf, [b], Listed(items[1..]));
    }
  }

  lemma {:induction false} ExpandFirstRange(lo: Spelling, hi: Spelling, next: seq<nat>, items: seq<Item>, first: bool,
                                            buf: seq<nat>)
    requires Items(items, first) && 0 !in buf && (first ==> buf == []) && items != [] && items[0] == Range(lo, hi)
    requires next == ItemsText(items[1..])
    ensures CString(Expand(ItemsText(items), buf)) == buf + Listed(items)
    decreases items, 0
  {
    hide Expand, Spelled, Value, CString, AddRange, Through;
    var b, h := Value(lo) % 256, Value(hi);
    var range := ['-' as nat] + (Text(hi) + next);
    Assoc(Text(lo), ['-' as nat] + Text(hi), next);
    Assoc(['-' as nat], Text(hi), next);
    ExpandChar(lo, range, buf);
    if b == 0 {
      assert [0] + [] == [0] && buf + [] == buf;
      NulEnds(range, buf, []);
    } else {
      ExpandMinus(hi, next, buf + [b]);
      RangeWritten(b, h, buf, next);
      if h < 256 {
        ThroughNoNul(b, h);
        ExpandItems(items[1..], false, buf + Through(b, h));
        Assoc(buf, Through(b, h), Listed(items[1..]));
      }
    }
  }

  /** MAIN: the members of a class are the characters that its items list, in order. */
  lemma ClassListed(items: seq<Item>)
    requires Items(items, true)
    ensures ClassMembers(ItemsText(items)) == Listed(items)
  {
    ExpandItems(items, true, []);
    assert [] + Listed(items) == Listed(items);
  }
}
