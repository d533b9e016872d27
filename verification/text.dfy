/** String handling of the transformation engine: the markup escaper
    (`SafeStr`), the regular-expression tests the engine applies to element
    names and values, and Ruby's `String#chomp`.
 */
module Text {

  // ---------------------------------------------------------------------
  // Escaping
  // ---------------------------------------------------------------------

  /** Replaces every occurrence of the character `c` in `s` by `rep`: Ruby's
      `gsub` with a one-character literal pattern. */
  function ReplaceAll(s: string, c: char, rep: string): (r: string)
    ensures c !in rep ==> c !in r
    ensures c !in s ==> r == s
    ensures forall x :: x in r ==> x in s || x in rep
  {
    if |s| == 0 then ""
    else (if s[0] == c then rep else [s[0]]) + ReplaceAll(s[1..], c, rep)
  }

  /** The escaper of MeterMaid.rb: three successive replace-all passes in
      the order `<`, `>`, `&`.  Because `&` is replaced last, the ampersands
      introduced by the first two passes are escaped again. */
  function SafeStr(s: string): (r: string)
    ensures '<' !in r && '>' !in r
    ensures ('<' !in s && '>' !in s && '&' !in s) ==> r == s
  {
    ReplaceAll(ReplaceAll(ReplaceAll(s, '<', "&lt;"), '>', "&gt;"), '&', "&amp;")
  }

  /** Reference definition: what one input character turns into. */
  function EscapeChar(c: char): string {
    if c == '<' then "&amp;lt;"
    else if c == '>' then "&amp;gt;"
    else if c == '&' then "&amp;"
    else [c]
  }

  /** Reference definition: the character-by-character escape. */
  function EscapeEach(s: string): string {
    if |s| == 0 then "" else EscapeChar(s[0]) + EscapeEach(s[1..])
  }

  lemma {:induction false} ReplaceAllAppend(a: string, b: string, c: char, rep: string)
    ensures ReplaceAll(a + b, c, rep) == ReplaceAll(a, c, rep) + ReplaceAll(b, c, rep)
  {
    if |a| == 0 {
      assert a + b == b;
    } else {
      assert (a + b)[0] == a[0];
      assert (a + b)[1..] == a[1..] + b;
      ReplaceAllAppend(a[1..], b, c, rep);
    }
  }

  lemma SafeStrAppend(a: string, b: string)
    ensures SafeStr(a + b) == SafeStr(a) + SafeStr(b)
  {
    var a1, b1 := ReplaceAll(a, '<', "&lt;"), ReplaceAll(b, '<', "&lt;");
    ReplaceAllAppend(a, b, '<', "&lt;");
    var a2, b2 := ReplaceAll(a1, '>', "&gt;"), ReplaceAll(b1, '>', "&gt;");
    ReplaceAllAppend(a1, b1, '>', "&gt;");
    ReplaceAllAppend(a2, b2, '&', "&amp;");
  }

  lemma SafeStrChar(c: char)
    ensures SafeStr([c]) == EscapeChar(c)
  {
    assert [c][1..] == "";
  }

  /** The three ordered passes escape each character independently: every
      `<` becomes `&amp;lt;`, every `>` becomes `&amp;gt;`, every `&` becomes
      `&amp;` and every other character is kept. */
  lemma {:induction false} SafeStrIsCharwise(s: string)
    ensures SafeStr(s) == EscapeEach(s)
  {
    if |s| == 0 {
    } else {
      assert s == [s[0]] + s[1..];
      SafeStrAppend([s[0]], s[1..]);
      SafeStrChar(s[0]);
      SafeStrIsCharwise(s[1..]);
    }
  }

  lemma EscapeEachCons(c: char, s: string)
    ensures EscapeEach([c] + s) == EscapeChar(c) + EscapeEach(s)
  {
    assert ([c] + s)[0] == c;
    assert ([c] + s)[1..] == s;
  }

  lemma EscapeEachSample(a: char, b: char)
    requires a !in "<>&" && b !in "<>&"
    ensures EscapeEach(['<', a, '&', b, '>']) == "&amp;lt;" + [a] + "&amp;" + [b] + "&amp;gt;"
  {
    var s4, s3, s2, s1 := ['>'], [b, '>'], ['&', b, '>'], [a, '&', b, '>'];
    assert s4 == ['>'] + "" && s3 == [b] + s4 && s2 == ['&'] + s3;
    assert s1 == [a] + s2 && ['<', a, '&', b, '>'] == ['<'] + s1;
    EscapeEachCons('>', "");
    EscapeEachCons(b, s4);
    EscapeEachCons('&', s3);
    EscapeEachCons(a, s2);
    EscapeEachCons('<', s1);
    assert EscapeChar(a) == [a] && EscapeChar(b) == [b];
  }

  /** The escaper double-escapes: `<a&b>` does not become `&lt;a&amp;b&gt;`
      but `&amp;lt;a&amp;b&amp;gt;`, for any ordinary characters `a`, `b`. */
  lemma SafeStrDoubleEscapes(a: char, b: char)
    requires a !in "<>&" && b !in "<>&"
    ensures SafeStr(['<', a, '&', b, '>']) == "&amp;lt;" + [a] + "&amp;" + [b] + "&amp;gt;"
  {
    SafeStrIsCharwise(['<', a, '&', b, '>']);
    EscapeEachSample(a, b);
  }

  lemma EscapeEachLt()
    ensures EscapeEach("<") == EscapeEach("&lt;")
  {
    assert "<" == ['<'] + "";
    assert "&lt;" == ['&'] + "lt;";
    assert "lt;" == ['l'] + "t;";
    assert "t;" == ['t'] + ";";
    assert ";" == [';'] + "";
    EscapeEachCons('<', "");
    EscapeEachCons(';', "");
    EscapeEachCons('t', ";");
    EscapeEachCons('l', "t;");
    EscapeEachCons('&', "lt;");
  }

  /** A consequence of the double escaping: the escaper is not injective.  A
      literal `<` and the literal text `&lt;` come out the same wherever
      they stand, so the generated document cannot tell them apart. */
  lemma SafeStrConflates(s: string, t: string)
    ensures s + "<" + t != s + "&lt;" + t
    ensures SafeStr(s + "<" + t) == SafeStr(s + "&lt;" + t)
  {
    assert |s + "<" + t| != |s + "&lt;" + t|;
    SafeStrAppend(s + "<", t);
    SafeStrAppend(s, "<");
    SafeStrAppend(s + "&lt;", t);
    SafeStrAppend(s, "&lt;");
    SafeStrIsCharwise("<");
    SafeStrIsCharwise("&lt;");
    EscapeEachLt();
  }

  // ---------------------------------------------------------------------
  // Regular-expression tests on names and values
  // ---------------------------------------------------------------------

  /** ASCII lower-casing, the folding `/.../i` applies to the ASCII
      patterns the engine uses. */
  function Lower(c: char): char {
    if 'A' <= c <= 'Z' then (c as int + 32) as char else c
  }

  function Fold(c: char, ignoreCase: bool): char {
    if ignoreCase then Lower(c) else c
  }

  /** `p` occurs in `s` at position `i`. */
  predicate MatchAt(s: string, p: string, i: nat, ignoreCase: bool) {
    i + |p| <= |s| && forall k :: 0 <= k < |p| ==> Fold(s[i + k], ignoreCase) == p[k]
  }

  predicate PrefixMatch(s: string, p: string, ignoreCase: bool) {
    |p| <= |s| && forall k :: 0 <= k < |p| ==> Fold(s[k], ignoreCase) == p[k]
  }

  /** Scans `s` left to right for an occurrence of `p`: what Ruby's `=~`
      with an unanchored literal pattern decides. */
  function Occurs(s: string, p: string, ignoreCase: bool): (r: bool)
    ensures r <==> exists i: nat :: MatchAt(s, p, i, ignoreCase)
  {
    if PrefixMatch(s, p, ignoreCase) then
      assert MatchAt(s, p, 0, ignoreCase);
      true
    else if |s| == 0 then
      assert |p| > 0;
      false
    else
      var rest := Occurs(s[1..], p, ignoreCase);
      assert forall i: nat :: MatchAt(s, p, i + 1, ignoreCase) <==> MatchAt(s[1..], p, i, ignoreCase) by {
        forall i: nat ensures MatchAt(s, p, i + 1, ignoreCase) <==> MatchAt(s[1..], p, i, ignoreCase) {
        }
      }
      assert !MatchAt(s, p, 0, ignoreCase);
      if rest then
        var i: nat :| MatchAt(s[1..], p, i, ignoreCase);
        assert MatchAt(s, p, i + 1, ignoreCase);
        true
      else
        assert forall i: nat :: !MatchAt(s, p, i, ignoreCase) by {
          forall i: nat ensures !MatchAt(s, p, i, ignoreCase) {
            if i > 0 {
              assert !MatchAt(s[1..], p, i - 1, ignoreCase);
            }
          }
        }
        false
  }

  /** `s =~ /p/`: case-sensitive, unanchored. */
  predicate Contains(s: string, p: string) {
    Occurs(s, p, false)
  }

  /** `s =~ /p/i`: case-insensitive, unanchored.  `p` is lower-case ASCII. */
  predicate ContainsCI(s: string, p: string) {
    Occurs(s, p, true)
  }

  // ---------------------------------------------------------------------
  // CSV lines
  // ---------------------------------------------------------------------

  /** Ruby's `String#chomp` without arguments: drops one trailing "\r\n",
      "\n" or "\r".  What is removed is one line terminator at most; a
      line that ends in one loses it (a "\r\n" as a whole), and any other
      line is left alone. */
  function Chomp(line: string): (r: string)
    ensures r <= line && |line| - 2 <= |r|
    ensures |line| == 0 ==> r == ""
    ensures |line| > 0 && (line[|line| - 1] == '\n' || line[|line| - 1] == '\r') ==> r != line
    ensures |line| == 0 || (line[|line| - 1] != '\n' && line[|line| - 1] != '\r') ==> r == line
  {
    if |line| >= 2 && line[|line| - 2..] == "\r\n" then line[..|line| - 2]
    else if |line| >= 1 && (line[|line| - 1] == '\n' || line[|line| - 1] == '\r') then
      line[..|line| - 1]
    else
      line
  }

  /** What `chomp` removes is a single line terminator or nothing, and a
      "\r\n" goes as a whole. */
  lemma ChompRemovesOne(line: string)
    ensures line[|Chomp(line)|..] in {"", "\n", "\r", "\r\n"}
    ensures |line| >= 2 && line[|line| - 2..] == "\r\n" ==> |Chomp(line)| == |line| - 2
  {
    if |line| >= 2 && line[|line| - 2..] == "\r\n" {
    } else if |line| >= 1 && (line[|line| - 1] == '\n' || line[|line| - 1] == '\r') {
      assert line[|line| - 1..] == [line[|line| - 1]];
    } else {
      assert line[|line|..] == "";
    }
  }

  /** A line that `chomp` leaves empty: the line terminator alone. */
  predicate BlankLine(line: string) {
    Chomp(line) == ""
  }
}
