/** Lines and pieces of text. */
module Text {
  import opened Wrappers

  /** `str::starts_with`. */
  predicate StartsWith(s: string, prefix: string) {
    prefix <= s
  }

  function Flatten(pieces: seq<string>): string {
    if pieces == [] then "" else pieces[0] + Flatten(pieces[1..])
  }

  /** `str::split_inclusive('\n')`. */
  function SplitInclusive(text: string): (lines: seq<string>)
    ensures lines == [] <==> text == []
  {
    if text == [] then []
    else if text[0] == '\n' || |text| == 1 then [text[..1]] + SplitInclusive(text[1..])
    else
      var rest := SplitInclusive(text[1..]);
      [text[..1] + rest[0]] + rest[1..]
  }

  /** No newline except as the last character. */
  predicate IsLine(s: string) {
    s != [] && forall i :: 0 <= i < |s| - 1 ==> s[i] != '\n'
  }

  predicate EndsLine(s: string) {
    s != [] && s[|s| - 1] == '\n'
  }

  /** Lines are non-empty, only the last may lack its newline, and together they are the text. */
  lemma {:induction false} SplitInclusiveFacts(text: string)
    ensures Flatten(SplitInclusive(text)) == text
    ensures forall k :: 0 <= k < |SplitInclusive(text)| ==> IsLine(SplitInclusive(text)[k])
    ensures forall k :: 0 <= k < |SplitInclusive(text)| - 1 ==> EndsLine(SplitInclusive(text)[k])
  {
    SplitFlattens(text);
    SplitIntoLines(text);
  }

  lemma {:induction false} SplitFlattens(text: string)
    ensures Flatten(SplitInclusive(text)) == text
  {
    if text != [] {
      SplitFlattens(text[1..]);
      var lines, rest := SplitInclusive(text), SplitInclusive(text[1..]);
      assert text == text[..1] + text[1..];
      if text[0] == '\n' || |text| == 1 {
        assert lines[1..] == rest;
      } else {
        assert rest == [rest[0]] + rest[1..];
        assert lines[0] == text[..1] + rest[0] && lines[1..] == rest[1..];
        assert text[..1] + (rest[0] + Flatten(rest[1..])) == (text[..1] + rest[0]) + Flatten(rest[1..]);
      }
    }
  }

  lemma {:induction false} SplitIntoLines(text: string)
    ensures forall k :: 0 <= k < |SplitInclusive(text)| ==> IsLine(SplitInclusive(text)[k])
    ensures forall k :: 0 <= k < |SplitInclusive(text)| - 1 ==> EndsLine(SplitInclusive(text)[k])
  {
    if text != [] {
      SplitIntoLines(text[1..]);
      var lines, rest := SplitInclusive(text), SplitInclusive(text[1..]);
      if text[0] == '\n' || |text| == 1 {
        assert lines[1..] == rest;
      } else {
        assert lines[0] == text[..1] + rest[0] && lines[1..] == rest[1..];
      }
    }
  }

  lemma {:induction false} FlattenConcat(a: seq<string>, b: seq<string>)
    ensures Flatten(a + b) == Flatten(a) + Flatten(b)
  {
    if a == [] {
      assert a + b == b;
    } else {
      assert (a + b)[1..] == a[1..] + b;
      FlattenConcat(a[1..], b);
    }
  }

  lemma SliceCut<T>(s: seq<T>, i: nat, j: nat)
    requires i <= j <= |s|
    ensures s == s[..i] + s[i..] && s[i..] == s[i..j] + s[j..]
  {
  }

  datatype Pair = Pair(left: string, right: string)

  /** `str::split_once`. */
  function SplitOnce(s: string, pattern: string): Option<Pair> {
    if pattern <= s then Some(Pair("", s[|pattern|..]))
    else if s == [] then None
    else
      var rest := SplitOnce(s[1..], pattern);
      if rest.None? then None else Some(Pair([s[0]] + rest.value.left, rest.value.right))
  }

  lemma {:induction false} SplitOnceAt(a: string, pattern: string, b: string)
    requires pattern != [] && pattern[0] !in a
    ensures SplitOnce(a + (pattern + b), pattern) == Some(Pair(a, b))
  {
    var s := a + (pattern + b);
    if a == [] {
      assert s == pattern + b;
    } else {
      assert s[0] == a[0] && s[1..] == a[1..] + (pattern + b);
      SplitOnceAt(a[1..], pattern, b);
      assert [a[0]] + a[1..] == a;
    }
  }

  lemma {:induction false} NotSplit(s: string, pattern: string)
    requires pattern != [] && pattern[0] !in s
    ensures SplitOnce(s, pattern).None?
  {
    if s != [] { NotSplit(s[1..], pattern); }
  }

  /** `str::ends_with`. */
  predicate EndsWith(s: string, suffix: string) {
    |suffix| <= |s| && s[|s| - |suffix|..] == suffix
  }

  function LowerAscii(c: char): char {
    if 'A' <= c <= 'Z' then (c as int + 32) as char else c
  }
}
