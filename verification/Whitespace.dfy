/** White space as the Rust standard library defines it, and trimming. */
module Whitespace {

  /** `char::is_whitespace`: the Unicode White_Space property. */
  predicate IsWhitespace(c: char) {
    var n := c as int;
    || 0x09 <= n <= 0x0D || n == 0x20 || n == 0x85 || n == 0xA0 || n == 0x1680
    || 0x2000 <= n <= 0x200A || n == 0x2028 || n == 0x2029 || n == 0x202F || n == 0x205F || n == 0x3000
  }

  /** `u8::is_ascii_whitespace`: the vertical tab is not among them. */
  predicate IsAsciiWhitespace(c: char) {
    c == ' ' || c == '\t' || c == '\n' || c == '\r' || c == 0x0C as char
  }

  predicate AllWhitespace(s: string) {
    forall i :: 0 <= i < |s| ==> IsWhitespace(s[i])
  }

  predicate NoWhitespace(s: string) {
    forall i :: 0 <= i < |s| ==> !IsWhitespace(s[i])
  }

  predicate IsWord(s: string) {
    s != [] && NoWhitespace(s)
  }

  /** `str::trim_start`: what is cut off is white space, and what is left does not start with any. */
  function TrimStart(s: string): (r: string)
    ensures |r| <= |s| && s[|s| - |r|..] == r && AllWhitespace(s[..|s| - |r|])
    ensures r != [] ==> !IsWhitespace(r[0])
  {
    if s != [] && IsWhitespace(s[0]) then
      var r := TrimStart(s[1..]);
      assert s == s[..1] + s[1..];
      assert s[..|s| - |r|] == s[..1] + s[1..][..|s| - 1 - |r|];
      r
    else s
  }

  /** `str::trim_end`. */
  function TrimEnd(s: string): (r: string)
    ensures r <= s && AllWhitespace(s[|r|..])
    ensures r != [] ==> !IsWhitespace(r[|r| - 1])
  {
    if s != [] && IsWhitespace(s[|s| - 1]) then
      var r := TrimEnd(s[..|s| - 1]);
      assert s[|r|..] == s[..|s| - 1][|r|..] + [s[|s| - 1]];
      r
    else s
  }

  function Trim(s: string): string {
    TrimEnd(TrimStart(s))
  }

  predicate IsLineBreak(c: char) {
    c == '\r' || c == '\n'
  }

  /** `trim_end_matches(['\\r', '\\n'])`. */
  function TrimLineEnd(line: string): (r: string)
    ensures r <= line && (forall i :: |r| <= i < |line| ==> IsLineBreak(line[i]))
    ensures r != [] ==> !IsLineBreak(r[|r| - 1])
  {
    if line != [] && IsLineBreak(line[|line| - 1]) then TrimLineEnd(line[..|line| - 1]) else line
  }

  /** How far the text goes before its first white space. */
  function TokenEnd(s: string): (n: nat)
    ensures n <= |s| && NoWhitespace(s[..n]) && (n < |s| ==> IsWhitespace(s[n]))
  {
    if s == [] || IsWhitespace(s[0]) then 0
    else
      var n := TokenEnd(s[1..]);
      assert s[..1 + n] == s[..1] + s[1..][..n];
      1 + n
  }

  // ----- what trimming leaves

  lemma Blanks()
    ensures IsWhitespace(' ') && !IsWhitespace('a') && !IsWhitespace('b') && !IsWhitespace('/')
    ensures forall c :: IsAsciiWhitespace(c) ==> IsWhitespace(c)
  {
  }

  lemma TrimEmpty(s: string)
    ensures Trim(s) == [] <==> AllWhitespace(s)
  {
    hide TrimStart, TrimEnd, IsWhitespace;
  }

  lemma {:induction false} TrimStartOf(blank: string, s: string)
    requires AllWhitespace(blank) && (s == [] || !IsWhitespace(s[0]))
    ensures TrimStart(blank + s) == s
  {
    hide TrimStart, IsWhitespace;
    var all, r := blank + s, TrimStart(blank + s);
    assert all[|blank|..] == s;
  }

  lemma {:induction false} TrimLineEndOf(t: string, eol: string)
    requires t != [] && !IsLineBreak(t[|t| - 1]) && forall i :: 0 <= i < |eol| ==> IsLineBreak(eol[i])
    ensures TrimLineEnd(t + eol) == t
  {
    hide TrimLineEnd;
    var r := TrimLineEnd(t + eol);
    assert (t + eol)[..|t|] == t;
  }

  lemma {:induction false} TrimEndOf(s: string, blank: string)
    requires AllWhitespace(blank) && (s == [] || !IsWhitespace(s[|s| - 1]))
    ensures TrimEnd(s + blank) == s
  {
    hide TrimEnd, IsWhitespace;
    var all, r := s + blank, TrimEnd(s + blank);
    assert all[..|s|] == s;
  }

  lemma {:induction false} UntrimmedStart(s: string)
    requires s != [] && !IsWhitespace(s[0])
    ensures TrimStart(s) == s
  {
    hide IsWhitespace, TrimStart;
    TrimStartOf("", s);
    assert "" + s == s;
  }

  lemma {:induction false} TokenEndOf(word: string, tail: string)
    requires NoWhitespace(word) && (tail == [] || IsWhitespace(tail[0]))
    ensures TokenEnd(word + tail) == |word|
  {
    hide TokenEnd, IsWhitespace;
    var n := TokenEnd(word + tail);
    assert (word + tail)[..|word|] == word;
  }

  lemma Untrimmed(s: string)
    requires s != [] && !IsWhitespace(s[0]) && !IsWhitespace(s[|s| - 1])
    ensures Trim(s) == s
  {
    hide TrimStart, TrimEnd, IsWhitespace;
    UntrimmedStart(s);
    TrimEndOf(s, "");
    assert s + "" == s;
  }

  lemma QuoteIsNoBlank()
    ensures !IsWhitespace('"') && !IsLineBreak('"')
  {
  }
}
