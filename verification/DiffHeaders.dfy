/** Paths in the header line of a git section, and when an unquoted header is read as it was written. */
module DiffHeaders {
  import opened Wrappers
  import opened Whitespace
  import opened Utf8
  import opened GitQuoting

  datatype Paths = Paths(before: string, after: string)

  // ----- unquoted paths with spaces

  /** A place where the second path may start. */
  predicate StartsSecond(s: string, pos: nat, pattern: string) {
    0 < pos < |s| && pattern <= s[pos..] && IsAsciiWhitespace(s[pos - 1])
  }

  /** `maybe_add_candidate`. */
  function Candidate(s: string, pos: nat): Option<Paths>
    requires pos <= |s|
  {
    var before, after := TrimEnd(s[..pos]), TrimStart(s[pos..]);
    if before == [] || after == [] then None
    else if !("a/" <= before || before == "/dev/null") || !("b/" <= after || after == "/dev/null") then None
    else if before != "/dev/null" && after != "/dev/null" && before[2..] != after[2..] then None
    else Some(Paths(before, after))
  }

  predicate AcceptedAs(s: string, pos: nat, pattern: string) {
    StartsSecond(s, pos, pattern) && Candidate(s, pos).Some?
  }

  predicate Accepted(s: string, pos: nat) {
    AcceptedAs(s, pos, "b/") || AcceptedAs(s, pos, "/dev/null")
  }

  ghost predicate OnlyAt(s: string, pos: nat) {
    Accepted(s, pos) && forall q: nat :: Accepted(s, q) ==> q == pos
  }

  /** The paths of the only acceptable split, if there is exactly one. */
  ghost function OnlySplit(s: string): Option<Paths> {
    if exists pos: nat :: OnlyAt(s, pos) then
      var pos: nat :| OnlyAt(s, pos);
      Candidate(s, pos)
    else None
  }

  lemma OnlySplitAt(s: string, pos: nat)
    requires OnlyAt(s, pos)
    ensures OnlySplit(s) == Candidate(s, pos)
  {
  }

  /** Candidates found so far, with their positions: all accepted ones seen, each once. */
  ghost predicate Collected(s: string, candidates: seq<Paths>, found: seq<nat>) {
    && |found| == |candidates|
    && (forall i :: 0 <= i < |found| ==> Accepted(s, found[i]) && Candidate(s, found[i]) == Some(candidates[i]))
    && forall i, j :: 0 <= i < j < |found| ==> found[i] != found[j]
  }

  method CollectCandidates(s: string, pattern: string, before: seq<Paths>, ghost foundBefore: seq<nat>)
    returns (candidates: seq<Paths>, ghost found: seq<nat>)
    requires pattern == "b/" || pattern == "/dev/null"
    requires Collected(s, before, foundBefore)
    requires forall p: nat :: p in foundBefore ==> !StartsSecond(s, p, pattern)
    ensures Collected(s, candidates, found)
    ensures forall p: nat :: p in found <==> p in foundBefore || AcceptedAs(s, p, pattern)
  {
    hide Candidate, StartsSecond;
    candidates, found := before, foundBefore;
    for pos := 0 to |s|
      invariant Collected(s, candidates, found)
      invariant forall p: nat :: p in found <==> p in foundBefore || (p < pos && AcceptedAs(s, p, pattern))
    {
      if StartsSecond(s, pos, pattern) {
        var c := Candidate(s, pos);
        if c.Some? {
          candidates, found := candidates + [c.value], found + [pos];
        }
      }
    }
    PastTheEnd(s, pattern);
  }

  lemma PastTheEnd(s: string, pattern: string)
    ensures forall p: nat :: AcceptedAs(s, p, pattern) ==> p < |s|
  {
  }

  lemma CollectedSplit(s: string, candidates: seq<Paths>, found: seq<nat>)
    requires Collected(s, candidates, found) && forall p: nat :: p in found <==> Accepted(s, p)
    ensures OnlySplit(s) == if |candidates| == 1 then Some(candidates[0]) else None
  {
    hide Candidate, Accepted;
    if |candidates| == 1 {
      assert forall p: nat :: p in found <==> p == found[0];
      OnlySplitAt(s, found[0]);
    } else if |candidates| > 1 {
      assert found[0] in found && found[1] in found;
    }
  }

  /** `parse_diff_git_paths_with_unquoted_spaces`. */
  method ParseUnquotedSpaces(rest: string) returns (r: Option<Paths>)
    ensures r == OnlySplit(Trim(rest))
  {
    hide Trim, Candidate, StartsSecond, AcceptedAs, OnlySplit;
    var s := Trim(rest);
    if s == [] {
      NothingAccepted(s);
      return None;
    }
    ghost var found;
    var candidates;
    candidates, found := CollectCandidates(s, "b/", [], []);
    PatternsDiffer(s);
    candidates, found := CollectCandidates(s, "/dev/null", candidates, found);
    CollectedSplit(s, candidates, found);
    return if |candidates| == 1 then Some(candidates[0]) else None;
  }

  lemma NothingAccepted(s: string)
    requires s == []
    ensures OnlySplit(s) == None
  {
  }

  lemma PatternsDiffer(s: string)
    ensures forall p: nat :: AcceptedAs(s, p, "b/") ==> !StartsSecond(s, p, "/dev/null")
  {
    hide Candidate;
    forall p: nat | AcceptedAs(s, p, "b/") ensures !StartsSecond(s, p, "/dev/null") {
      assert s[p..][0] == 'b';
    }
  }

  // ----- the header line

  /** Both paths as tokens, with nothing behind them. */
  function TokenPaths(rest: string): Option<Paths> {
    var first := ParseDiffToken(rest);
    if first.None? then None
    else
      var second := ParseDiffToken(first.value.remaining);
      if second.None? || Trim(second.value.remaining) != [] then None
      else Some(Paths(first.value.text, second.value.text))
  }

  /** A path as a header writes it: a word as it is, or anything quoted. */
  function TokenText(path: string, quoted: bool): string {
    if quoted then Quoted(path) else path
  }

  predicate TokenOk(path: string, quoted: bool) {
    quoted || (IsWord(path) && path[0] != '"')
  }

  lemma TokenReads(blank: string, path: string, quoted: bool, tail: string)
    requires AllWhitespace(blank) && TokenOk(path, quoted) && (tail == [] || IsWhitespace(tail[0]))
    ensures ParseDiffToken(blank + (TokenText(path, quoted) + tail)) == Some(Token(path, tail))
  {
    hide ParseDiffToken, IsWhitespace, Quoted;
    if quoted { GitQuotingRoundTrip(blank, path, tail); } else { TokenAfter(blank, path, tail); }
  }

  /** Two paths written as tokens are told apart. */
  lemma TwoTokens(before: string, quoteBefore: bool, after: string, quoteAfter: bool)
    requires TokenOk(before, quoteBefore) && TokenOk(after, quoteAfter)
    ensures TokenPaths(TokenText(before, quoteBefore) + (" " + TokenText(after, quoteAfter)))
            == Some(Paths(before, after))
  {
    hide IsWhitespace, ParseDiffToken, Trim, TokenText, TokenOk;
    Blanks();
    var b, a := TokenText(before, quoteBefore), TokenText(after, quoteAfter);
    TokenReads("", before, quoteBefore, " " + a);
    TokenReads(" ", after, quoteAfter, "");
    assert "" + (b + (" " + a)) == b + (" " + a) && " " + (a + "") == " " + a;
    TrimEmpty("");
  }

  lemma TokenLast(path: string, quoted: bool)
    requires TokenOk(path, quoted)
    ensures var t := TokenText(path, quoted); t != [] && !IsWhitespace(t[|t| - 1]) && !IsLineBreak(t[|t| - 1])
  {
    hide Quoted;
    if quoted { QuotedEnds(path); }
  }

  lemma QuotedEnds(path: string)
    ensures var q := Quoted(path); |q| >= 2 && q[0] == '"' && q[|q| - 1] == '"'
  {
    hide Render, QuoteBytes;
  }

  ghost function GitPaths(rest: string): Option<Paths> {
    if TokenPaths(rest).Some? then TokenPaths(rest) else OnlySplit(Trim(rest))
  }

  /** The one path of a combined diff header. */
  function CombinedPath(rest: string): Option<string> {
    var s := Trim(rest);
    if s != [] && s[0] == '"' then
      var token := ParseDiffToken(s);
      if token.None? || Trim(token.value.remaining) != [] then None else Some(token.value.text)
    else if s == [] then None
    else Some(s)
  }

  ghost function SectionPaths(line: string): Option<seq<string>> {
    if "diff --git " <= line then
      var p := GitPaths(TrimLineEnd(line[11..]));
      if p.None? then None else Some([p.value.before, p.value.after])
    else if "diff --cc " <= line then
      var p := CombinedPath(TrimLineEnd(line[10..]));
      if p.None? then None else Some([p.value])
    else if "diff --combined " <= line then
      var p := CombinedPath(TrimLineEnd(line[16..]));
      if p.None? then None else Some([p.value])
    else None
  }

  function HeaderLine(before: string, quoteBefore: bool, after: string, quoteAfter: bool): string {
    "diff --git " + (TokenText(before, quoteBefore) + (" " + TokenText(after, quoteAfter)))
  }

  predicate AllLineBreaks(eol: string) {
    forall i :: 0 <= i < |eol| ==> IsLineBreak(eol[i])
  }

  lemma {:induction false} TokenRest(before: string, quoteBefore: bool, after: string, quoteAfter: bool, eol: string)
    requires TokenOk(before, quoteBefore) && TokenOk(after, quoteAfter) && AllLineBreaks(eol)
    ensures GitPaths(TrimLineEnd((TokenText(before, quoteBefore) + (" " + TokenText(after, quoteAfter))) + eol))
         == Some(Paths(before, after))
  {
    hide TokenText, TokenOk, TokenPaths, TrimLineEnd, OnlySplit, Trim, IsLineBreak, IsWhitespace;
    var rest := TokenText(before, quoteBefore) + (" " + TokenText(after, quoteAfter));
    TokenLast(after, quoteAfter);
    assert rest[|rest| - 1] == TokenText(after, quoteAfter)[|TokenText(after, quoteAfter)| - 1];
    TrimLineEndOf(rest, eol);
    TwoTokens(before, quoteBefore, after, quoteAfter);
  }

  /** A header of two tokens gives both paths, whatever ends the line. */
  lemma TokenHeader(before: string, quoteBefore: bool, after: string, quoteAfter: bool, eol: string)
    requires TokenOk(before, quoteBefore) && TokenOk(after, quoteAfter) && AllLineBreaks(eol)
    ensures SectionPaths(HeaderLine(before, quoteBefore, after, quoteAfter) + eol) == Some([before, after])
  {
    hide TokenText, TokenOk, GitPaths, TrimLineEnd, AllLineBreaks;
    var rest := TokenText(before, quoteBefore) + (" " + TokenText(after, quoteAfter));
    TokenRest(before, quoteBefore, after, quoteAfter, eol);
    var line := HeaderLine(before, quoteBefore, after, quoteAfter) + eol;
    assert line[..11] == "diff --git " && line[11..] == rest + eol;
  }

  /** `parse_diff_section_paths`. */
  method ParseSectionPaths(line: string) returns (r: Option<seq<string>>)
    ensures r == SectionPaths(line)
  {
    hide TokenPaths, OnlySplit, CombinedPath, TrimLineEnd;
    if "diff --git " <= line {
      var rest := TrimLineEnd(line[11..]);
      var tokens := TokenPaths(rest);
      if tokens.Some? {
        return Some([tokens.value.before, tokens.value.after]);
      }
      var split := ParseUnquotedSpaces(rest);
      return if split.None? then None else Some([split.value.before, split.value.after]);
    }
    if "diff --cc " <= line {
      var path := CombinedPath(TrimLineEnd(line[10..]));
      return if path.None? then None else Some([path.value]);
    }
    if "diff --combined " <= line {
      var path := CombinedPath(TrimLineEnd(line[16..]));
      return if path.None? then None else Some([path.value]);
    }
    return None;
  }

  /** A path that stands alone behind the words of a combined header. */
  predicate CombinedOk(path: string, quoted: bool) {
    quoted || (path != [] && path[0] != '"' && !IsWhitespace(path[0]) && !IsWhitespace(path[|path| - 1]))
  }

  /** A combined header gives its one path, also if that holds spaces or is quoted. */
  lemma {:induction false} CombinedHeader(prefix: string, path: string, quoted: bool, eol: string)
    requires prefix in {"diff --cc ", "diff --combined "} && CombinedOk(path, quoted) && AllLineBreaks(eol)
    ensures SectionPaths(prefix + (TokenText(path, quoted) + eol)) == Some([path])
  {
    hide CombinedPath, TrimLineEnd, GitPaths, TokenText, IsLineBreak, CombinedOk;
    var t := TokenText(path, quoted);
    var line := prefix + (t + eol);
    CombinedToken(path, quoted);
    TrimLineEndOf(t, eol);
    assert prefix <= line && line[|prefix|..] == t + eol;
    assert line[7] == prefix[7] && line[8] == prefix[8];
  }

  lemma {:induction false} CombinedToken(path: string, quoted: bool)
    requires CombinedOk(path, quoted)
    ensures var t := TokenText(path, quoted);
            t != [] && !IsLineBreak(t[|t| - 1]) && CombinedPath(t) == Some(path)
  {
    hide IsWhitespace, ParseDiffToken, Quoted, Trim;
    var t := TokenText(path, quoted);
    if quoted {
      QuotedEnds(path);
      QuoteIsNoBlank();
      GitQuotingRoundTrip("", path, "");
      assert "" + (Quoted(path) + "") == Quoted(path);
      TrimEmpty("");
    } else {
      EndNoBreak(t);
    }
    Untrimmed(t);
  }

  lemma EndNoBreak(t: string)
    requires t != [] && !IsWhitespace(t[|t| - 1])
    ensures !IsLineBreak(t[|t| - 1])
  {
  }

  // ----- when an unquoted header reads back

  function HeaderRest(path: string): string {
    "a/" + (path + (" b/" + path))
  }

  predicate EndsInWhitespace(path: string) {
    path != [] && IsWhitespace(path[|path| - 1])
  }

  /** The path ends in what could be a second path of its own. */
  predicate EndsInDevNull(path: string) {
    |path| >= 10 && path[|path| - 9..] == "/dev/null" && IsAsciiWhitespace(path[|path| - 10])
  }

  /** The whole text is what could stand between quotes. */
  predicate QuotedWhole(s: string) {
    var u := Unescape(s);
    u.Some? && u.value.consumed == |s| && Decode(u.value.bytes).Some?
  }

  /**
   The path is a word, white space and a quote, so that the text from its quote to the quote that
   ends the header can pass for a quoted second path.
   */
  predicate PassesForQuoted(path: string) {
    && |path| >= 2 && path[|path| - 1] == '"'
    && (var w := TokenEnd(path); w < |path| - 1 && AllWhitespace(path[w..|path| - 1]))
    && QuotedWhole(" b/" + path[..|path| - 1])
  }

  predicate Readable(path: string) {
    !EndsInWhitespace(path) && !EndsInDevNull(path) && !PassesForQuoted(path)
  }

  lemma HeaderChars(path: string)
    ensures var t, n := HeaderRest(path), |path|;
            && |t| == 2 * n + 5 && t[0] == 'a' && t[1] == '/' && t[n + 2] == ' ' && t[n + 3] == 'b' && t[n + 4] == '/'
            && t[..2] == "a/" && t[2..n + 2] == path && t[n + 5..] == path && t[..n + 2] == "a/" + path
            && t[n + 3..] == "b/" + path
  {
  }


  lemma TokenAfter(blank: string, word: string, tail: string)
    requires AllWhitespace(blank) && word != [] && NoWhitespace(word) && word[0] != '"'
    requires tail == [] || IsWhitespace(tail[0])
    ensures ParseDiffToken(blank + (word + tail)) == Some(Token(word, tail))
  {
    hide TrimStart, IsWhitespace, QuotedToken;
    TrimStartOf(blank, word + tail);
    TokenEndOf(word, tail);
    assert (word + tail)[..|word|] == word && (word + tail)[|word|..] == tail;
  }

  /** A path without white space is read by the tokens alone. */
  lemma WordHeader(path: string)
    requires NoWhitespace(path)
    ensures TokenPaths(HeaderRest(path)) == Some(Paths("a/" + path, "b/" + path))
  {
    hide ParseDiffToken, IsWhitespace, TrimStart, TrimEnd;
    Blanks();
    TokenAfter("", "a/" + path, " b/" + path);
    TokenAfter(" ", "b/" + path, "");
    assert "" + (("a/" + path) + (" b/" + path)) == HeaderRest(path);
    assert " " + (("b/" + path) + "") == " b/" + path;
    TrimEmpty("");
  }

  lemma WordReadable(path: string)
    requires NoWhitespace(path)
    ensures Readable(path)
  {
    hide Unescape, Decode, IsWhitespace;
    Blanks();
    TokenEndOf(path, "");
    assert path + "" == path;
  }

  /** A second token that is not quoted stops before the second path, which is left over. */
  lemma {:induction false} PlainSecond(s: string, n: nat)
    requires 0 < n < |s| - 1 && IsWhitespace(s[n]) && !IsWhitespace(s[n + 1])
    ensures !AllWhitespace(s[TokenEnd(s)..])
  {
    hide TokenEnd, IsWhitespace;
    assert TokenEnd(s) <= n;
    assert s[TokenEnd(s)..][n + 1 - TokenEnd(s)] == s[n + 1];
  }

  lemma LeftOver(s: string, n: nat)
    requires n < |s| && !IsWhitespace(s[|s| - 1])
    ensures !AllWhitespace(s[n..])
  {
    hide IsWhitespace;
    assert s[n..][|s| - 1 - n] == s[|s| - 1];
  }

  /** A quote that ends a path also ends the header. */
  lemma ClosingQuote(x: string)
    requires x != [] && IsWhitespace(x[|x| - 1])
    ensures var q := QuotedToken(x + "\""); q.Some? && AllWhitespace(q.value.remaining) <==> QuotedWhole(x)
  {
    hide Unescape, Decode;
    var s := x + "\"";
    UnescapeBeforeQuote(x);
    var u := Unescape(s);
    if u.Some? && u.value.consumed < |x| { LeftOver(s, u.value.consumed + 1); }
  }

  /** A quote with more of the path behind it is not the end of the header. */
  lemma InnerQuote(s: string, c: nat)
    requires 0 < c < |s| - 1 && s[c] == '"' && IsWhitespace(s[c - 1]) && !IsWhitespace(s[|s| - 1])
    ensures var q := QuotedToken(s); !(q.Some? && AllWhitespace(q.value.remaining))
  {
    hide Unescape, Decode;
    var u := Unescape(s);
    if u.Some? {
      UnescapeStopsBy(s, c);
      LeftOver(s, u.value.consumed + 1);
    }
  }

  ghost predicate Finishes(t: Option<Token>) {
    t.Some? && AllWhitespace(t.value.remaining)
  }

  lemma {:induction false} TokenFrom(blank: string, s: string)
    requires AllWhitespace(blank) && s != [] && !IsWhitespace(s[0])
    ensures ParseDiffToken(blank + s) ==
            if s[0] == '"' then QuotedToken(s[1..]) else Some(Token(s[..TokenEnd(s)], s[TokenEnd(s)..]))
  {
    hide IsWhitespace, TrimStart, QuotedToken, TokenEnd;
    TrimStartOf(blank, s);
  }

  lemma SecondToken(path: string, w: nat, k: nat)
    requires w < k < |path| && AllWhitespace(path[w..k]) && !IsWhitespace(path[k]) && !EndsInWhitespace(path)
    ensures Finishes(ParseDiffToken(path[w..] + (" b/" + path))) <==>
            path[k] == '"' && k == |path| - 1 && QuotedWhole(" b/" + path[..k])
  {
    hide IsWhitespace, QuotedToken, QuotedWhole, TokenEnd, ParseDiffToken;
    var s := path[k..] + (" b/" + path);
    TokenFrom(path[w..k], s);
    assert path[w..] + (" b/" + path) == path[w..k] + s;
    assert path[w..k][k - 1 - w] == path[k - 1];
    if path[k] != '"' {
      Blanks();
      PlainSecond(s, |path| - k);
    } else if k < |path| - 1 {
      assert s[1..] == path[k + 1..] + (" b/" + path);
      QuoteInside(path, k);
    } else {
      assert s[1..] == (" b/" + path[..k]) + "\"";
      ClosingQuote(" b/" + path[..k]);
    }
  }

  lemma QuoteInside(path: string, k: nat)
    requires 0 < k < |path| - 1 && IsWhitespace(path[k - 1]) && path[k] == '"' && !EndsInWhitespace(path)
    ensures var q := QuotedToken(path[k + 1..] + (" b/" + path)); !(q.Some? && AllWhitespace(q.value.remaining))
  {
    hide IsWhitespace, QuotedToken;
    var s := path[k + 1..] + (" b/" + path);
    assert s[|path| + 2] == path[k] && s[|path| + 1] == path[k - 1] && s[|s| - 1] == path[|path| - 1];
    InnerQuote(s, |path| + 2);
  }

  /** With white space inside the path, the tokens alone are right never, and wrong in one case only. */
  lemma {:induction false} SpacedTokens(path: string)
    requires !EndsInWhitespace(path) && TokenEnd(path) < |path|
    ensures TokenPaths(HeaderRest(path)).Some? <==> PassesForQuoted(path)
    ensures TokenPaths(HeaderRest(path)) != Some(Paths("a/" + path, "b/" + path))
  {
    hide IsWhitespace, QuotedWhole, TokenEnd, ParseDiffToken, TrimStart, TrimEnd, Trim;
    var w := TokenEnd(path);
    var k := |path| - |TrimStart(path[w..])|;
    FirstBlankRun(path, w, k);
    BlankRunEnds(path, w, k);
    SecondToken(path, w, k);
    FirstToken(path, w);
    var second := ParseDiffToken(path[w..] + (" b/" + path));
    if second.Some? { TrimEmpty(second.value.remaining); }
    assert |("a/" + path[..w])| < |("a/" + path)|;
  }

  lemma {:induction false} FirstToken(path: string, w: nat)
    requires w == TokenEnd(path) < |path|
    ensures ParseDiffToken(HeaderRest(path)) == Some(Token("a/" + path[..w], path[w..] + (" b/" + path)))
  {
    hide IsWhitespace, TokenEnd, ParseDiffToken;
    Blanks();
    TokenAfter("", "a/" + path[..w], path[w..] + (" b/" + path));
    Regroup("a/", path[..w], path[w..], " b/" + path);
    assert path[..w] + path[w..] == path;
  }

  lemma Regroup(a: string, b: string, c: string, d: string)
    ensures "" + ((a + b) + (c + d)) == a + ((b + c) + d)
  {
  }

  lemma {:induction false} FirstBlankRun(path: string, w: nat, k: int)
    requires w == TokenEnd(path) < |path| && !EndsInWhitespace(path) && k == |path| - |TrimStart(path[w..])|
    ensures w < k < |path| && AllWhitespace(path[w..k]) && !IsWhitespace(path[k])
  {
    hide IsWhitespace, TokenEnd, TrimStart;
    var tail := path[w..];
    var more := TrimStart(tail);
    assert tail[|tail| - 1] == path[|path| - 1];
    assert more != [];
    assert more[0] == tail[|tail| - |more|] == path[k];
    assert tail[..k - w] == path[w..k];
  }

  lemma {:induction false} BlankRunEnds(path: string, w: nat, k: nat)
    requires w == TokenEnd(path) < k < |path| && AllWhitespace(path[w..k]) && !IsWhitespace(path[k])
    ensures PassesForQuoted(path) <==> path[k] == '"' && k == |path| - 1 && QuotedWhole(" b/" + path[..k])
  {
    hide IsWhitespace, QuotedWhole, TokenEnd;
    if k < |path| - 1 { assert path[w..|path| - 1][k - w] == path[k]; }
  }

  // ----- the only split

  lemma RightSplit(path: string)
    requires !EndsInWhitespace(path)
    ensures var t := HeaderRest(path);
            AcceptedAs(t, |path| + 3, "b/") && Candidate(t, |path| + 3) == Some(Paths("a/" + path, "b/" + path))
  {
    hide IsWhitespace, TrimStart, TrimEnd;
    Blanks();
    HeaderChars(path);
    var t, n := HeaderRest(path), |path|;
    assert t[..n + 3] == ("a/" + path) + " ";
    TrimEndOf("a/" + path, " ");
    TrimStartOf("", "b/" + path);
    assert "" + ("b/" + path) == "b/" + path;
    assert ("a/" + path)[2..] == path && ("b/" + path)[2..] == path;
  }

  /** Where a split at `b/` is accepted, white space separates two texts of the same length. */
  lemma SplitShape(t: string, q: nat)
    requires AcceptedAs(t, q, "b/") && t[0] == 'a'
    ensures var m := |TrimEnd(t[..q])|; 2 <= m < q && q + m == |t| && forall i :: m <= i < q ==> IsWhitespace(t[i])
  {
    hide IsWhitespace, TrimStart, TrimEnd;
    Blanks();
    var before := TrimEnd(t[..q]);
    assert t[q..][0] == 'b';
    UntrimmedStart(t[q..]);
    assert before[0] == 'a';
    assert forall i :: |before| <= i < q ==> t[..q][|before|..][i - |before|] == t[i];
  }

  /** Another split at `b/` would make the path end in white space. */
  lemma NoOtherSplit(path: string, q: nat)
    requires !EndsInWhitespace(path) && AcceptedAs(HeaderRest(path), q, "b/")
    ensures q == |path| + 3
  {
    hide IsWhitespace, TrimStart, TrimEnd, AcceptedAs, HeaderRest;
    HeaderChars(path);
    HeaderCharAt(path, |path| - 1);
    SplitShape(HeaderRest(path), q);
  }

  lemma HeaderCharAt(path: string, i: int)
    requires -1 <= i < |path|
    ensures i >= 0 ==> HeaderRest(path)[i + 2] == path[i] == HeaderRest(path)[|path| + 5 + i]
  {
    if i >= 0 {
      HeaderChars(path);
      assert HeaderRest(path)[2..|path| + 2][i] == HeaderRest(path)[i + 2];
      assert HeaderRest(path)[|path| + 5..][i] == HeaderRest(path)[|path| + 5 + i];
    }
  }

  lemma DevNullShape(t: string, q: nat)
    requires AcceptedAs(t, q, "/dev/null")
    ensures t[q..] == "/dev/null"
  {
    hide IsWhitespace, TrimStart, TrimEnd;
    Blanks();
    assert t[q..][0] == '/';
    UntrimmedStart(t[q..]);
  }

  /** A split at `/dev/null` needs a path that ends so. */
  lemma DevNullSplit(path: string, q: nat)
    requires AcceptedAs(HeaderRest(path), q, "/dev/null")
    ensures EndsInDevNull(path)
  {
    hide HeaderRest, Candidate;
    HeaderChars(path);
    var t, n := HeaderRest(path), |path|;
    DevNullShape(t, q);
    assert q == 2 * n - 4;
    assert forall i :: q <= i < |t| ==> t[q..][i - q] == t[i];
    assert n >= 10;
    assert t[n + 5..][n - 9..] == t[q..];
    HeaderCharAt(path, n - 10);
  }

  lemma DevNullCandidate(t: string, q: nat)
    requires q <= |t| && "a/" <= t[..q] && t[q..] == "/dev/null"
    ensures Candidate(t, q).Some?
  {
    hide IsWhitespace, TrimStart, TrimEnd;
    Blanks();
    UntrimmedStart(t[q..]);
    KeepsStart(t[..q]);
  }

  lemma DevNullAccepted(path: string)
    requires EndsInDevNull(path)
    ensures Accepted(HeaderRest(path), 2 * |path| - 4)
  {
    hide HeaderRest, Candidate;
    HeaderChars(path);
    var t, n := HeaderRest(path), |path|;
    var q := 2 * n - 4;
    assert t[n + 5..][n - 9..] == t[q..];
    HeaderCharAt(path, n - 10);
    DevNullCandidate(t, q);
  }

  lemma {:induction false} KeepsStart(s: string)
    requires "a/" <= s
    ensures "a/" <= TrimEnd(s)
  {
    hide IsWhitespace, TrimEnd;
    Blanks();
    var n := |TrimEnd(s)|;
    assert s[1] == '/';
    assert forall i :: n <= i < |s| ==> s[n..][i - n] == s[i];
    assert n >= 2;
  }

  /** The split of the header is the one it was written with, unless the path ends like a second path. */
  lemma HeaderSplit(path: string)
    requires !EndsInWhitespace(path)
    ensures OnlySplit(HeaderRest(path)) == Some(Paths("a/" + path, "b/" + path)) <==> !EndsInDevNull(path)
    ensures EndsInDevNull(path) ==> OnlySplit(HeaderRest(path)).None?
  {
    hide AcceptedAs, Candidate, HeaderRest, EndsInDevNull;
    var t := HeaderRest(path);
    RightSplit(path);
    forall q: nat | AcceptedAs(t, q, "b/") ensures q == |path| + 3 { NoOtherSplit(path, q); }
    forall q: nat | AcceptedAs(t, q, "/dev/null") ensures EndsInDevNull(path) { DevNullSplit(path, q); }
    assert Accepted(t, |path| + 3);
    if EndsInDevNull(path) {
      DevNullAccepted(path);
      DevNullPlace(path);
      var q: nat := 2 * |path| - 4;
      assert Accepted(t, q) && q != |path| + 3;
      assert forall pos: nat :: !OnlyAt(t, pos);
    } else {
      OnlySplitAt(t, |path| + 3);
    }
  }

  lemma DevNullPlace(path: string)
    requires EndsInDevNull(path)
    ensures 2 * |path| - 4 > |path| + 3
  {
  }

  lemma TokenBefore(rest: string)
    requires rest != [] && rest[0] == 'a' && TokenPaths(rest).Some?
    ensures NoWhitespace(TokenPaths(rest).value.before)
  {
    hide IsWhitespace, TrimStart, TrimEnd, TokenEnd, QuotedToken;
    Blanks();
    UntrimmedStart(rest);
  }

  lemma SplitBefore(s: string)
    requires OnlySplit(s).Some?
    ensures !EndsInWhitespace(OnlySplit(s).value.before)
  {
    hide IsWhitespace, TrimStart, TrimEnd, Accepted;
  }

  /** A path that ends in white space is never what is read. */
  lemma NotReadWithBlankEnd(path: string, rest: string)
    requires EndsInWhitespace(path) && rest != [] && rest[0] == 'a'
    ensures GitPaths(rest).None? || GitPaths(rest).value.before != "a/" + path
  {
    hide IsWhitespace, TokenPaths, OnlySplit, Trim;
    var whole := "a/" + path;
    assert whole[|whole| - 1] == path[|path| - 1];
    if TokenPaths(rest).Some? {
      TokenBefore(rest);
    } else if OnlySplit(Trim(rest)).Some? {
      SplitBefore(Trim(rest));
    }
  }

  /**
   An unquoted `diff --git` header is read as it was written if and only if the path does not end in
   white space, nor in white space and `/dev/null`, nor passes for a quoted path with what follows.
   */
  lemma HeaderRoundTrip(path: string, eol: string)
    requires eol in {"", "\n", "\r\n"}
    ensures SectionPaths("diff --git " + (HeaderRest(path) + eol)) == Some(["a/" + path, "b/" + path]) <==>
            Readable(path)
  {
    hide HeaderRest, GitPaths, Readable, TrimLineEnd;
    var t, line := HeaderRest(path), "diff --git " + (HeaderRest(path) + eol);
    assert line[11..] == t + eol;
    if GitPaths(TrimLineEnd(t + eol)).Some? {
      var p := GitPaths(TrimLineEnd(t + eol)).value;
      assert [p.before, p.after] == ["a/" + path, "b/" + path] <==> p == Paths("a/" + path, "b/" + path);
    }
    RestRoundTrip(path, eol);
  }

  lemma {:induction false} RestRoundTrip(path: string, eol: string)
    requires eol in {"", "\n", "\r\n"}
    ensures GitPaths(TrimLineEnd(HeaderRest(path) + eol)) == Some(Paths("a/" + path, "b/" + path)) <==> Readable(path)
  {
    hide HeaderRest, TrimLineEnd, TokenPaths, OnlySplit, EndsInDevNull, PassesForQuoted, Trim, IsWhitespace, TokenEnd;
    HeaderChars(path);
    var t := HeaderRest(path);
    if EndsInWhitespace(path) {
      var rest := TrimLineEnd(t + eol);
      assert (t + eol)[0] == 'a';
      NotReadWithBlankEnd(path, rest);
    } else {
      HeaderEnds(path);
      TrimLineEndOf(t, eol);
      if TokenEnd(path) == |path| {
        assert path[..|path|] == path;
        WordHeader(path);
        WordReadable(path);
      } else {
        SpacedTokens(path);
        HeaderSplit(path);
      }
    }
  }

  lemma HeaderEnds(path: string)
    requires !EndsInWhitespace(path)
    ensures var t := HeaderRest(path); t != [] && !IsLineBreak(t[|t| - 1]) && Trim(t) == t
  {
    hide TrimStart, TrimEnd, IsWhitespace, HeaderRest;
    Blanks();
    HeaderChars(path);
    HeaderCharAt(path, |path| - 1);
    var t := HeaderRest(path);
    UntrimmedStart(t);
    TrimEndOf(t, "");
    assert t + "" == t;
  }

  /** The path `x "` is not read back: a quoted second path is found where there is none. */
  lemma QuoteAtEndMisread()
    ensures !Readable("x \"")
    ensures SectionPaths("diff --git a/x \" b/x \"") != Some(["a/x \"", "b/x \""])
  {
    hide SectionPaths, Readable;
    QuoteAtEndUnreadable();
    HeaderRoundTrip("x \"", "");
    assert "diff --git " + (HeaderRest("x \"") + "") == "diff --git a/x \" b/x \"";
    assert "a/" + "x \"" == "a/x \"" && "b/" + "x \"" == "b/x \"";
  }

  lemma QuoteAtEndUnreadable()
    ensures !Readable("x \"")
  {
    hide QuotedWhole, TokenEnd;
    Blanks();
    TokenEndOf("x", " \"");
    assert "x" + " \"" == "x \"";
    QuotedExample();
    assert " b/" + ("x \"")[..2] == " b/x ";
  }

  lemma QuotedExample()
    ensures QuotedWhole(" b/x ")
  {
    var pieces := [Plain(' '), Plain('b'), Plain('/'), Plain('x'), Plain(' ')];
    UnescapeRendered(pieces, "");
    DecodeOfEncoded(" b/x ");
  }
}
