/** The glob matcher of pmake, and the matching and building of words with `%`
    (bsdmake/str.c). */
module StrMatch {

  /** `Overrun`: the pattern is read past its end, behind a bracket that is not closed. */
  datatype Verdict = Yes | No | Overrun

  // ----- Str_Match as a function on what is left of the string and of the pattern.

  /** The list in a bracket, from the member that accepts `c` on; `Miss` if none does. */
  datatype Search = Hit(rest: string) | Miss

  predicate Between(a: char, c: char, b: char) {
    (a <= c && c <= b) || (b <= c && c <= a)
  }

  function Members(p: string, c: char): (r: Search)
    ensures r.Hit? ==> |r.rest| <= |p|
    decreases |p|
  {
    if p == "" || p[0] == ']' then Miss
    else if p[0] == c then Hit(p)
    else if |p| > 1 && p[1] == '-' then
      if |p| == 2 then Miss
      else if Between(p[0], c, p[2]) then Hit(p)
      else Members(p[3..], c)
    else Members(p[1..], c)
  }

  function ToClose(p: string): (r: string)
    ensures |r| <= |p|
  {
    if p != "" && p[0] != ']' then ToClose(p[1..]) else p
  }

  function Match(s: string, p: string): Verdict
    decreases |p|, |s|, 0
  {
    if p == "" then (if s == "" then Yes else No)
    else if p[0] == '*' then (if |p| == 1 then Yes else Tails(s, p[1..]))
    else if s == "" then No
    else if p[0] == '?' then Match(s[1..], p[1..])
    else if p[0] == '[' then
      match Members(p[1..], s[0])
      case Miss => No
      case Hit(q) =>
        var r := ToClose(q);
        if r == "" then Overrun else Match(s[1..], r[1..])
    else if p[0] == '\\' then
      if |p| == 1 || p[1] != s[0] then No else Match(s[1..], p[2..])
    else if p[0] != s[0] then No
    else Match(s[1..], p[1..])
  }

  /** Behind a star every tail of the string is tried, but for the empty one. */
  function Tails(s: string, p: string): Verdict
    decreases |p|, |s|, 1
  {
    if s == "" then No
    else
      var v := Match(s, p);
      if v != No then v else Tails(s[1..], p)
  }

  // ----- Patterns.

  datatype Member = One(c: char) | Range(from: char, to: char)

  /** `escaped`: written with a backslash. */
  datatype Piece = Plain(c: char, escaped: bool) | AnyOne | Many | Class(members: seq<Member>)

  function MemberText(m: Member): string {
    match m case One(c) => [c] case Range(a, b) => [a, '-', b]
  }

  /** Members that are written one behind the other are read as they are meant: none begins
      with the closing bracket, a range does not end with it, and a character is not followed by
      a minus. */
  predicate Readable(ms: seq<Member>) {
    ms != [] ==>
      && Readable(ms[1..])
      && (match ms[0]
          case One(c) => c != ']' && (|ms| > 1 ==> MemberText(ms[1])[0] != '-')
          case Range(a, b) => a != ']' && b != ']')
  }

  function MembersText(ms: seq<Member>): string {
    if ms == [] then "" else MemberText(ms[0]) + MembersText(ms[1..])
  }

  predicate Proper(ps: seq<Piece>) {
    forall i :: 0 <= i < |ps| ==>
      match ps[i]
      case Plain(c, escaped) => escaped || c !in {'*', '?', '[', '\\'}
      case Class(ms) => Readable(ms)
      case _ => true
  }

  function PieceText(x: Piece): (t: string)
    ensures t != ""
  {
    match x
    case Plain(c, escaped) => if escaped then ['\\', c] else [c]
    case AnyOne => "?"
    case Many => "*"
    case Class(ms) => "[" + (MembersText(ms) + "]")
  }

  function Text(ps: seq<Piece>): string {
    if ps == [] then "" else PieceText(ps[0]) + Text(ps[1..])
  }

  predicate Accepts(ms: seq<Member>, c: char) {
    exists i :: 0 <= i < |ms| && Lists(ms[i], c)
  }

  /** A range may run backwards. */
  predicate Lists(m: Member, c: char) {
    match m
    case One(d) => c == d
    case Range(a, b) => if a <= b then a <= c <= b else b <= c <= a
  }

  predicate Takes(x: Piece, c: char) {
    match x
    case Plain(d, _) => c == d
    case AnyOne => true
    case Many => false
    case Class(ms) => Accepts(ms, c)
  }

  /** What a pattern means. */
  predicate Means(ps: seq<Piece>, s: string) {
    if ps == [] then s == ""
    else if ps[0].Many? then exists i :: 0 <= i <= |s| && Means(ps[1..], s[i..])
    else s != "" && Takes(ps[0], s[0]) && Means(ps[1..], s[1..])
  }

  // ----- Brackets.

  lemma MembersOne(d: char, rest: string, c: char)
    requires d != ']' && rest != "" && rest[0] != '-'
    ensures Members([d] + rest, c) == if c == d then Hit([d] + rest) else Members(rest, c)
  {
    assert ([d] + rest)[1..] == rest;
  }

  lemma MembersRange(a: char, b: char, rest: string, c: char)
    requires a != ']'
    ensures Members([a, '-', b] + rest, c) == if Between(a, c, b) then Hit([a, '-', b] + rest) else Members(rest, c)
  {
    assert ([a, '-', b] + rest)[3..] == rest;
  }

  lemma {:induction false} MembersRead(ms: seq<Member>, r: string, c: char)
    requires Readable(ms)
    ensures var v := Members(MembersText(ms) + ("]" + r), c);
            if Accepts(ms, c) then v.Hit? && ToClose(v.rest) == "]" + r else v == Miss
  {
    var tail := "]" + r;
    if ms == [] {
      assert MembersText(ms) + tail == tail;
    } else {
      var rest := MembersText(ms[1..]) + tail;
      MembersRead(ms[1..], r, c);
      AcceptsFirst(ms, c);
      CloseFound(ms, r);
      assert MembersText(ms) + tail == MemberText(ms[0]) + rest;
      match ms[0] {
        case One(d) =>
          if |ms| > 1 { assert rest[0] == MemberText(ms[1])[0]; }
          MembersOne(d, rest, c);
        case Range(a, b) => MembersRange(a, b, rest, c);
      }
    }
  }

  lemma AcceptsFirst(ms: seq<Member>, c: char)
    requires ms != []
    ensures Accepts(ms, c)
            <==> Lists(ms[0], c) || Accepts(ms[1..], c)
  {
    if Accepts(ms[1..], c) {
      var i :| 0 <= i < |ms[1..]| && Lists(ms[1..][i], c);
      assert ms[i + 1] == ms[1..][i];
    }
    if Accepts(ms, c) {
      var i :| 0 <= i < |ms| && Lists(ms[i], c);
      if i > 0 { assert ms[1..][i - 1] == ms[i]; }
    }
  }

  lemma CloseSkips(c: char, r: string)
    requires c != ']'
    ensures ToClose([c] + r) == ToClose(r)
  {
    assert ([c] + r)[1..] == r;
  }

  lemma {:induction false} CloseFound(ms: seq<Member>, r: string)
    requires Readable(ms)
    ensures ToClose(MembersText(ms) + ("]" + r)) == "]" + r
  {
    var tail := "]" + r;
    if ms == [] {
      assert MembersText(ms) + tail == tail;
    } else {
      var rest := MembersText(ms[1..]) + tail;
      CloseFound(ms[1..], r);
      assert MembersText(ms) + tail == MemberText(ms[0]) + rest;
      match ms[0] {
        case One(d) => CloseSkips(d, rest);
        case Range(a, b) =>
          assert [a, '-', b] + rest == [a] + (['-'] + ([b] + rest));
          CloseSkips(b, rest);
          CloseSkips('-', [b] + rest);
          CloseSkips(a, ['-'] + ([b] + rest));
      }
    }
  }

  // ----- The theorem.

  /** How the program reads a pattern: two or more stars at its end stand for at least one
      character. */
  function Tight(ps: seq<Piece>): seq<Piece> {
    if ps == [] then []
    else if AllMany(ps) then (if |ps| == 1 then ps else [AnyOne, Many])
    else [ps[0]] + Tight(ps[1..])
  }

  predicate AllMany(ps: seq<Piece>) {
    forall i :: 0 <= i < |ps| ==> ps[i].Many?
  }

  lemma {:induction false} NeedsSome(ps: seq<Piece>)
    requires !AllMany(ps)
    ensures !Means(Tight(ps), "")
  {
    assert Tight(ps)[1..] == Tight(ps[1..]);
    if ps[0].Many? {
      NeedsSome(ps[1..]);
      assert ""[0..] == "";
    }
  }

  lemma ManyMeans(s: string)
    ensures Means([Many], s) && (Means([AnyOne, Many], s) <==> s != "")
  {
    assert [Many][1..] == [] && s[|s|..] == "";
    assert Means([Many][1..], s[|s|..]);
    if s != "" {
      assert [AnyOne, Many][1..] == [Many] && s[1..][|s| - 1..] == "";
      assert Means([Many][1..], s[1..][|s| - 1..]);
    }
  }

  lemma Assoc(a: string, b: string, c: string)
    ensures (a + b) + c == a + (b + c)
  {
  }

  lemma EscapedStep(c: char, s: string, r: string)
    ensures Match(s, ['\\', c] + r) == if s != "" && s[0] == c then Match(s[1..], r) else No
  {
    assert (['\\', c] + r)[2..] == r;
  }

  lemma CharStep(c: char, s: string, r: string)
    requires c !in {'*', '[', '\\'}
    ensures Match(s, [c] + r) == if s != "" && (c == '?' || s[0] == c) then Match(s[1..], r) else No
  {
    assert ([c] + r)[1..] == r;
  }

  lemma ClassStep(ms: seq<Member>, s: string, r: string)
    requires Readable(ms)
    ensures Match(s, ['['] + (MembersText(ms) + ("]" + r))) == if s != "" && Accepts(ms, s[0]) then Match(s[1..], r)
            else No
  {
    var q := MembersText(ms) + ("]" + r);
    assert (['['] + q)[1..] == q && ("]" + r)[1..] == r;
    if s != "" { MembersRead(ms, r, s[0]); }
  }

  /** The step of a piece that takes one character. */
  lemma OneStep(x: Piece, s: string, r: string)
    requires !x.Many? && Proper([x])
    ensures Match(s, PieceText(x) + r) == if s != "" && Takes(x, s[0]) then Match(s[1..], r) else No
  {
    hide Match;
    assert Proper([x]) && [x][0] == x;
    match x
    case Plain(c, escaped) => if escaped { EscapedStep(c, s, r); } else { CharStep(c, s, r); }
    case AnyOne => CharStep('?', s, r);
    case Class(ms) =>
      ClassStep(ms, s, r);
      Assoc("[", MembersText(ms) + "]", r);
      Assoc(MembersText(ms), "]", r);
  }

  /** MAIN: a string matches the text of a pattern exactly if it has the pattern's meaning, two or
      more stars at the end of the pattern being read as `?*`. */
  lemma {:induction false} MatchMeans(ps: seq<Piece>, s: string)
    requires Proper(ps)
    ensures Match(s, Text(ps)) == if Means(Tight(ps), s) then Yes else No
    decreases |ps|, |s|, 0
  {
    if ps != [] {
      var rest := ps[1..];
      assert Proper(rest) && Proper([ps[0]]);
      if !ps[0].Many? {
        OneStep(ps[0], s, Text(rest));
        assert Tight(ps)[1..] == Tight(rest);
        if s != "" { MatchMeans(rest, s[1..]); }
      } else if rest == [] {
        ManyMeans(s);
        assert ps == [Many];
      } else {
        assert Text(ps)[1..] == Text(rest);
        TailsMean(rest, s);
        StarMeans(ps, s);
      }
    }
  }

  lemma {:induction false} TailsMean(ps: seq<Piece>, s: string)
    requires Proper(ps)
    ensures Tails(s, Text(ps)) == if exists i :: 0 <= i < |s| && Means(Tight(ps), s[i..]) then Yes else No
    decreases |ps|, |s|, 1
  {
    if s != "" {
      MatchMeans(ps, s);
      TailsMean(ps, s[1..]);
      assert s[0..] == s;
      if i :| 0 <= i < |s[1..]| && Means(Tight(ps), s[1..][i..]) { assert s[1..][i..] == s[i + 1..]; }
      if i :| 0 < i < |s| && Means(Tight(ps), s[i..]) { assert s[1..][i - 1..] == s[i..]; }
    }
  }

  /** A star in front of other stars only. */
  lemma StarsMean(ps: seq<Piece>, s: string)
    requires |ps| > 1 && AllMany(ps)
    ensures Means(Tight(ps), s) <==> exists i :: 0 <= i < |s| && Means(Tight(ps[1..]), s[i..])
  {
    ManyMeans(s);
    assert AllMany(ps[1..]);
    if s != "" {
      assert s[0..] == s && Means(Tight(ps[1..]), s[0..]) by {
        if |ps| == 2 { assert ps[1..] == [Many]; }
      }
    }
  }

  /** A star in front of something else. */
  lemma StarMeans(ps: seq<Piece>, s: string)
    requires |ps| > 1 && ps[0].Many?
    ensures Means(Tight(ps), s) <==> exists i :: 0 <= i < |s| && Means(Tight(ps[1..]), s[i..])
  {
    if AllMany(ps) {
      StarsMean(ps, s);
    } else {
      var k :| 0 <= k < |ps| && !ps[k].Many?;
      assert !ps[1..][k - 1].Many?;
      NeedsSome(ps[1..]);
      assert Tight(ps)[0].Many? && Tight(ps)[1..] == Tight(ps[1..]);
      assert s[|s|..] == "";
    }
  }

  predicate EndsInTwoStars(ps: seq<Piece>) {
    |ps| > 1 && ps[|ps| - 1].Many? && ps[|ps| - 2].Many?
  }

  lemma {:induction false} TightSame(ps: seq<Piece>)
    requires !EndsInTwoStars(ps)
    ensures Tight(ps) == ps
  {
    if ps != [] {
      assert !(AllMany(ps) && |ps| > 1);
      if |ps| > 2 { assert ps[1..][|ps| - 2] == ps[|ps| - 1] && ps[1..][|ps| - 3] == ps[|ps| - 2]; }
      TightSame(ps[1..]);
    }
  }

  /** MAIN: so the matcher is right about every pattern that does not end in two stars; on which
      strings it is wrong about the other ones is proved in StrStars. */
  lemma MatchRight(ps: seq<Piece>, s: string)
    requires Proper(ps) && !EndsInTwoStars(ps)
    ensures Match(s, Text(ps)) == if Means(ps, s) then Yes else No
  {
    MatchMeans(ps, s);
    TightSame(ps);
  }

  // ----- Brackets that are not closed.

  lemma {:induction false} NothingCloses(p: string)
    requires ']' !in p
    ensures ToClose(p) == ""
  {
    if p != "" { NothingCloses(p[1..]); }
  }

  /** The text of members in front of `rest`, which is empty or a character and a minus. */
  lemma {:induction false} OpenMembers(ms: seq<Member>, rest: string, c: char)
    requires Readable(ms) && ']' !in MembersText(ms) + rest && (rest == "" || (|rest| == 2 && rest[1] == '-'))
    requires rest != "" && ms != [] ==> rest[0] != '-'
    ensures var v := Members(MembersText(ms) + rest, c);
            if Accepts(ms, c) || (rest != "" && rest[0] == c) then v.Hit? && ToClose(v.rest) == "" else v == Miss
  {
    var p := MembersText(ms) + rest;
    if ms == [] {
      assert p == rest;
      NothingCloses(rest);
    } else {
      var q := MembersText(ms[1..]) + rest;
      assert p == MemberText(ms[0]) + q;
      assert forall d :: d in q ==> d in p;
      NothingCloses(p);
      AcceptsFirst(ms, c);
      OpenMembers(ms[1..], rest, c);
      match ms[0] {
        case One(d) =>
          if q == "" {
            assert p == [d];
          } else {
            if |ms| > 1 { assert q[0] == MemberText(ms[1])[0]; }
            MembersOne(d, q, c);
          }
        case Range(a, b) => MembersRange(a, b, q, c);
      }
    }
  }

  /** A bracket that is not closed takes no character that it does not list; behind one that it does
      list the pattern is read past its end. A minus at the end begins no range. */
  lemma OpenBracket(ms: seq<Member>, rest: string, s: string)
    requires Readable(ms) && ']' !in MembersText(ms) + rest && (rest == "" || (|rest| == 2 && rest[1] == '-'))
    requires rest != "" && ms != [] ==> rest[0] != '-'
    ensures Match(s, "[" + (MembersText(ms) + rest)) ==
            if s != "" && (Accepts(ms, s[0]) || (rest != "" && rest[0] == s[0])) then Overrun else No
  {
    var p := MembersText(ms) + rest;
    assert ("[" + p)[1..] == p;
    if s != "" { OpenMembers(ms, rest, s[0]); }
  }

  // ----- Words with `%`.

  function Percent(p: string): (n: nat)
    ensures n <= |p|
  {
    if p == "" || p[0] == '%' then 0 else 1 + Percent(p[1..])
  }

  /** What a pattern makes of the text for its `%`; without one the text goes in front. */
  function Substituted(p: string, x: string): string {
    var n := Percent(p);
    if n < |p| then p[..n] + (x + p[n + 1..]) else x + p
  }

  lemma {:induction false} PercentAt(a: string, b: string)
    requires '%' !in a
    ensures Percent(a + ("%" + b)) == |a| && Percent(a) == |a|
  {
    var p := a + ("%" + b);
    if a == "" {
      assert p[0] == '%';
    } else {
      assert p[1..] == a[1..] + ("%" + b);
      PercentAt(a[1..], b);
    }
  }

  /** The text takes the place of the first `%`; where there is none it goes in front. */
  lemma SubstitutedIs(a: string, b: string, x: string)
    requires '%' !in a
    ensures Substituted(a + ("%" + b), x) == a + (x + b) && Substituted(a, x) == x + a
  {
    PercentAt(a, b);
    var p := a + ("%" + b);
    assert p[..|a|] == a && p[|a| + 1..] == b;
  }

  // ----- The program.

  method StrMatchLoop(text: string, pat: string) returns (v: Verdict)
    ensures v == Match(text, pat)
    decreases |pat|
  {
    var s, p := text, pat;
    while true
      invariant Match(s, p) == Match(text, pat) && |p| <= |pat|
      decreases |p|
    {
      if p == "" { return if s == "" then Yes else No; }
      if s == "" && p[0] != '*' { return No; }
      if p[0] == '*' {
        p := p[1..];
        if p == "" { return Yes; }
        while s != ""
          invariant Tails(s, p) == Match(text, pat)
          decreases s
        {
          var w := StrMatchLoop(s, p);
          if w != No { return w; }
          s := s[1..];
        }
        return No;
      }
      if p[0] == '[' {
        var q := BracketLoop(p[1..], s[0]);
        if q.Miss? { return No; }
        p := q.rest;
        while p != "" && p[0] != ']'
          invariant ToClose(p) == ToClose(q.rest) && |p| <= |q.rest|
          decreases p
        {
          p := p[1..];
        }
        if p == "" { return Overrun; }
      } else if p[0] != '?' {
        if p[0] == '\\' {
          p := p[1..];
          if p == "" { return No; }
        }
        if p[0] != s[0] { return No; }
      }
      p := p[1..];
      s := s[1..];
    }
  }

  method BracketLoop(p0: string, c: char) returns (r: Search)
    ensures r == Members(p0, c)
  {
    var p := p0;
    while true
      invariant Members(p, c) == Members(p0, c)
      decreases |p|
    {
      if p == "" || p[0] == ']' { return Miss; }
      if p[0] == c { break; }
      if |p| > 1 && p[1] == '-' {
        if |p| == 2 { return Miss; }
        var c2 := p[2];
        if p[0] <= c && c2 >= c { break; }
        if p[0] >= c && c2 <= c { break; }
        p := p[2..];
      }
      p := p[1..];
    }
    r := Hit(p);
  }

  datatype Found = Found(start: nat, len: nat) | NotFound

  method FindPercent(p: string) returns (n: nat)
    ensures n == Percent(p)
  {
    n := 0;
    while n < |p| && p[n] != '%'
      invariant n <= |p| && Percent(p) == n + Percent(p[n..])
    {
      assert p[n..][1..] == p[n + 1..];
      n := n + 1;
    }
  }

  /** MAIN, `Str_SYSVMatch`: what it finds, put back into the pattern, gives the word again; and if it
      finds nothing, the pattern makes the word of no text at all. */
  method SysvMatch(word: string, pattern: string) returns (r: Found)
    ensures r.Found? ==> r.start + r.len <= |word| && Substituted(pattern, word[r.start..r.start + r.len]) == word
    ensures r.NotFound? ==> forall x :: Substituted(pattern, x) != word
  {
    hide Substituted, Percent;
    if pattern == "" {
      EmptyPattern(word);
      return Found(0, |word|);
    }
    var n := FindPercent(pattern);
    var p, m := pattern, 0;
    if n < |pattern| {
      while m < n && m < |word| && word[m] == pattern[m]
        invariant m <= n && m <= |word| && word[..m] == pattern[..m]
      {
        LongerPrefix(word, m);
        LongerPrefix(pattern, m);
        m := m + 1;
      }
      if m != n {
        forall x ensures Substituted(pattern, x) != word { PrefixNeeded(word, pattern, x, m); }
        return NotFound;
      }
      p := pattern[n + 1..];
    }
    r := FindTail(word, pattern, n, m, p);
  }

  lemma EmptyPattern(word: string)
    ensures Substituted("", word[0..|word|]) == word
  {
    MakesWord(word, "", 0, 0, |word|, "");
  }

  lemma LongerPrefix(s: string, m: nat)
    requires m < |s|
    ensures s[..m + 1] == s[..m] + [s[m]]
  {
  }

  lemma PrefixNeeded(word: string, pattern: string, x: string, m: nat)
    requires m < Percent(pattern) < |pattern| && m <= |word| && (m < |word| ==> word[m] != pattern[m])
    ensures Substituted(pattern, x) != word
  {
    assert Substituted(pattern, x)[m] == pattern[m];
  }

  lemma MakesWord(word: string, pattern: string, n: nat, m: nat, w: nat, p: string)
    requires n == Percent(pattern) && m <= w <= |word| && word[w..] == p
    requires if n < |pattern| then m == n && word[..m] == pattern[..n] && p == pattern[n + 1..]
             else m == 0 && p == pattern
    ensures Substituted(pattern, word[m..w]) == word
  {
    hide Percent;
    Rejoin(word, m, w);
    if n >= |pattern| { assert word[0..] == word; }
  }

  lemma Rejoin(word: string, m: nat, w: nat)
    requires m <= w <= |word|
    ensures word[m..w] + word[w..] == word[m..] && word[..m] + word[m..] == word
  {
  }

  /** The loop over the tails of the word; if the pattern ends with its `%` the empty tail is taken. */
  method FindTail(word: string, pattern: string, n: nat, m: nat, p: string) returns (r: Found)
    requires n == Percent(pattern) && m <= |word|
    requires if n < |pattern| then m == n && word[..m] == pattern[..n] && p == pattern[n + 1..]
             else m == 0 && p == pattern
    ensures r.Found? ==> r.start + r.len <= |word| && Substituted(pattern, word[r.start..r.start + r.len]) == word
    ensures r.NotFound? ==> forall x :: Substituted(pattern, x) != word
  {
    hide Substituted, Percent;
    if n < |pattern| && p == "" {
      MakesWord(word, pattern, n, m, |word|, p);
      return Found(m, |word| - m);
    }
    var w := m;
    while w <= |word|
      invariant m <= w <= |word| + 1
      invariant forall i :: m <= i < w ==> word[i..] != p
    {
      if word[w..] == p {
        MakesWord(word, pattern, n, m, w, p);
        return Found(m, w - m);
      }
      w := w + 1;
    }
    forall x ensures Substituted(pattern, x) != word {
      if Substituted(pattern, x) == word { TailIs(word, pattern, x, n, m, p); }
    }
    r := NotFound;
  }

  lemma Suffix(a: string, x: string, p: string)
    ensures (a + (x + p))[|a| + |x|..] == p && (x + p)[|x|..] == p
  {
  }

  lemma TailIs(word: string, pattern: string, x: string, n: nat, m: nat, p: string)
    requires n == Percent(pattern) && Substituted(pattern, x) == word
    requires if n < |pattern| then m == n && p == pattern[n + 1..] else m == 0 && p == pattern
    ensures m + |x| <= |word| && word[m + |x|..] == p
  {
    Suffix(pattern[..n], x, p);
  }

  /** `Str_SYSVSubst`. */
  method SysvSubst(pat: string, src: string, len: nat) returns (buf: string)
    requires len <= |src|
    ensures buf == Substituted(pat, src[..len])
  {
    buf := "";
    var p := pat;
    var m := FindPercent(pat);
    if m < |pat| {
      buf := buf + pat[..m];
      p := pat[m + 1..];
    }
    buf := buf + src[..len];
    buf := buf + p;
    assert m < |pat| ==> (pat[..m] + src[..len]) + p == pat[..m] + (src[..len] + p);
  }
}
