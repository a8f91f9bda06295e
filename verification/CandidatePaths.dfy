/** The paths that a section of a diff names: in its header line, its metadata and its `---` and `+++` pair. */
module CandidatePaths {
  import opened Wrappers
  import opened Text
  import opened Whitespace
  import opened Decimals
  import opened GitQuoting
  import opened DiffMarks
  import opened DiffHeaders

  datatype ParseError = NoFileSections | InvalidHeader

  // ----- what may follow a path in a `---` or `+++` line

  /** `looks_like_unified_diff_timestamp` of the filter, which also looks behind the date. */
  predicate IsTimestamp(s: string) {
    StartsWithDate(s) && (|s| == 10 || IsAsciiWhitespace(s[10]) || (s[10] == 'T' && |s| > 11 && IsDigit(s[11])))
  }

  /** `str::eq_ignore_ascii_case`. */
  predicate EqualIgnoringCase(s: string, t: string) {
    |s| == |t| && forall i :: 0 <= i < |s| ==> LowerAscii(s[i]) == LowerAscii(t[i])
  }

  /** `looks_like_svn_diff_revision_metadata`. */
  predicate IsRevision(s: string) {
    var t := Trim(s);
    || EqualIgnoringCase(t, "(working copy)")
    || EqualIgnoringCase(t, "(nonexistent)")
    || ("(revision " <= t && |t| > 10 && t[|t| - 1] == ')'
        && var number := Trim(t[10..|t| - 1]); number != [] && AllDigits(number))
  }

  predicate IsHeaderMetadata(s: string) {
    s == [] || IsTimestamp(s) || IsRevision(s)
  }

  /** A revision, in any case of letters where it has no number, may follow a path. */
  lemma {:induction false} RevisionMayFollow(n: nat)
    ensures IsHeaderMetadata("(revision " + (Decimal(n) + ")"))
    ensures IsHeaderMetadata("(working copy)") && IsHeaderMetadata("(Working Copy)")
    ensures IsHeaderMetadata("(nonexistent)")
  {
    hide Trim, Decimal, IsWhitespace, IsTimestamp;
    NoteEnds();
    Untrimmed("(working copy)");
    Untrimmed("(Working Copy)");
    Untrimmed("(nonexistent)");
    var number := Decimal(n);
    var note := "(revision " + (number + ")");
    DecimalIsNumeral(n);
    Untrimmed(note);
    DigitsUnpadded(number);
    assert note[..10] == "(revision " && note[10..|note| - 1] == number;
  }

  lemma NoteEnds()
    ensures !IsWhitespace('(') && !IsWhitespace(')')
  {
  }

  lemma DigitsUnpadded(digits: string)
    requires digits != [] && AllDigits(digits)
    ensures Trim(digits) == digits
  {
    hide Trim;
    Untrimmed(digits);
  }

  /** So may a date, alone or with more behind a blank or a `T` and a digit, and with nothing else behind it. */
  lemma {:induction false} DateMayFollow(year: string, month: string, day: string, more: string)
    requires AllDigits(year) && AllDigits(month) && AllDigits(day) && |year| == 4 && |month| == 2 && |day| == 2
    ensures IsHeaderMetadata(year + ("-" + (month + ("-" + (day + more))))) <==>
            more == [] || more[0] in " \t\n\r\U{0C}" || (|more| > 1 && more[0] == 'T' && '0' <= more[1] <= '9')
  {
    hide IsRevision, AllDigits;
    var s := year + ("-" + (month + ("-" + (day + more))));
    DateParts(year, month, day, more);
    assert more != [] ==> s[10..][0] == more[0];
    assert |more| > 1 ==> s[10..][1] == more[1];
    FirstDigit(year);
    NoRevision(s);
  }

  lemma FirstDigit(digits: string)
    requires digits != [] && AllDigits(digits)
    ensures !IsWhitespace(digits[0]) && digits[0] != '('
  {
  }

  lemma {:induction false} NoRevision(s: string)
    requires s != [] && s[0] != '(' && !IsWhitespace(s[0])
    ensures !IsRevision(s)
  {
    hide TrimEnd, IsWhitespace, TrimStart;
    UntrimmedStart(s);
    var t := Trim(s);
    assert t <= s;
    assert t != [] ==> t[0] == s[0];
  }

  lemma DateParts(year: string, month: string, day: string, more: string)
    requires |year| == 4 && |month| == 2 && |day| == 2
    ensures var s := year + ("-" + (month + ("-" + (day + more))));
            && |s| == 10 + |more| && s[..4] == year && s[4] == '-' && s[5..7] == month && s[7] == '-'
            && s[8..10] == day && s[10..] == more
  {
  }

  /** Nothing that starts with another character may. */
  lemma {:induction false} NothingElseFollows(s: string)
    requires s != [] && !IsDigit(s[0]) && s[0] != '(' && !IsWhitespace(s[0])
    ensures !IsHeaderMetadata(s)
  {
    hide IsRevision, IsWhitespace;
    NoRevision(s);
    if |s| >= 4 { assert s[..4][0] == s[0]; }
  }

  /** The path in front of the first tab, or the whole text. */
  function BeforeTab(rest: string): Option<Option<string>> {
    var split := SplitOnce(rest, "\t");
    if split.None? then None
    else if IsHeaderMetadata(Trim(split.value.right)) then Some(Some(split.value.left))
    else Some(None)
  }

  predicate IsQuoted(rest: string) {
    TrimStart(rest) != [] && TrimStart(rest)[0] == '"'
  }

  function QuotedPath(rest: string): Option<string> {
    var token := ParseDiffToken(rest);
    if token.Some? && IsHeaderMetadata(Trim(token.value.remaining)) then Some(token.value.text) else None
  }

  /** `parse_file_header_path`. */
  function HeaderPath(line: string, prefix: string): Option<string> {
    if !(prefix <= line) then None
    else
      var rest := TrimLineEnd(line[|prefix|..]);
      if IsQuoted(rest) then QuotedPath(rest)
      else if BeforeTab(rest).Some? then BeforeTab(rest).value
      else
        var word := TrimStart(rest);
        if word != [] && IsHeaderMetadata(Trim(word[TokenEnd(word)..])) then Some(word[..TokenEnd(word)]) else None
  }

  /** `parse_git_file_header_path`, for which blanks belong to the path. */
  function GitHeaderPath(line: string, prefix: string): Option<string> {
    if !(prefix <= line) then None
    else
      var rest := TrimLineEnd(line[|prefix|..]);
      if rest == [] then None
      else if IsQuoted(rest) then QuotedPath(rest)
      else if BeforeTab(rest).Some? then BeforeTab(rest).value
      else Some(rest)
  }

  // ----- metadata lines

  const RELOCATIONS := ["rename from ", "rename to ", "copy from ", "copy to "]

  /** Nothing but a path, which may be quoted. */
  function WholePath(rest: string): Option<string> {
    if !IsQuoted(rest) then Some(rest)
    else
      var token := ParseDiffToken(rest);
      if token.Some? && Trim(token.value.remaining) == [] then Some(token.value.text) else None
  }

  /** `parse_git_trailing_path`. */
  function TrailingPath(line: string, prefix: string): Option<string> {
    if !(prefix <= line) then None
    else
      var rest := TrimLineEnd(line[|prefix|..]);
      if rest == [] then None else WholePath(rest)
  }

  /** `parse_git_binary_path_token`. */
  function BinaryToken(input: string): Option<string> {
    if Trim(input) == [] then None else WholePath(Trim(input))
  }

  /** `str::match_indices`: the places of a pattern from `from` on, without overlaps. */
  function Matches(s: string, pattern: string, from: nat): (places: seq<nat>)
    requires pattern != [] && from <= |s|
    ensures forall i :: 0 <= i < |places| ==> from <= places[i] && places[i] + |pattern| <= |s|
    decreases |s| - from
  {
    if |s| - from < |pattern| then []
    else if pattern <= s[from..] then [from] + Matches(s, pattern, from + |pattern|)
    else Matches(s, pattern, from + 1)
  }

  /** Both paths are one path, up to git's own prefixes or one differing first directory each. */
  predicate SameFile(before: string, after: string) {
    var gitPrefixes := ("a/" <= before && "b/" <= after) || ("b/" <= before && "a/" <= after);
    if before == after then true
    else if gitPrefixes then before[2..] == after[2..]
    else
      var b, a := SplitOnce(before, "/"), SplitOnce(after, "/");
      b.Some? && a.Some? && b.value.left != a.value.left && b.value.right != [] && b.value.right == a.value.right
  }

  /** The pair that a split at this place gives, if it is one file; nothing at all if a side is malformed. */
  function SplitAt(rest: string, place: nat): Option<seq<Paths>>
    requires place + 5 <= |rest|
  {
    var before, after := TrimEnd(rest[..place]), TrimStart(rest[place + 5..]);
    if before == [] || after == [] then Some([])
    else
      var b, a := BinaryToken(before), BinaryToken(after);
      if b.None? || a.None? then None else Some(if SameFile(b.value, a.value) then [Paths(b.value, a.value)] else [])
  }

  function PairsAt(rest: string, places: seq<nat>): Option<seq<Paths>>
    requires forall i :: 0 <= i < |places| ==> places[i] + 5 <= |rest|
  {
    if places == [] then Some([])
    else
      var first, more := SplitAt(rest, places[0]), PairsAt(rest, places[1..]);
      if first.None? || more.None? then None else Some(first.value + more.value)
  }

  function PairOf(before: Option<string>, after: Option<string>): Option<Paths> {
    if before.Some? && after.Some? then Some(Paths(before.value, after.value)) else None
  }

  /** The two sides of ` and `, in a text without blanks around it. */
  function BinaryPair(rest: string): Option<Paths>
    requires rest != []
  {
    if rest[0] == '"' then
      var before := ParseDiffToken(rest);
      if before.None? || !("and " <= TrimStart(before.value.remaining)) then None
      else
        var after := ParseDiffToken(TrimStart(before.value.remaining)[4..]);
        if after.None? || Trim(after.value.remaining) != [] then None
        else Some(Paths(before.value.text, after.value.text))
    else if "/dev/null and " <= rest then PairOf(Some("/dev/null"), BinaryToken(rest[14..]))
    else if EndsWith(rest, " and /dev/null") then PairOf(BinaryToken(rest[..|rest| - 14]), Some("/dev/null"))
    else
      var places := Matches(rest, " and ", 0);
      if |places| == 1 then PairOf(BinaryToken(rest[..places[0]]), BinaryToken(rest[places[0] + 5..]))
      else
        var pairs := PairsAt(rest, places);
        if pairs.Some? && |pairs.value| == 1 then Some(pairs.value[0]) else None
  }

  /** The line announces binary files. */
  predicate IsBinaryLine(line: string) {
    "Binary files " < TrimLineEnd(line)
  }

  /** `parse_git_binary_files_line`, on a line that announces binary files. */
  function BinaryPaths(line: string): Option<Paths>
    requires IsBinaryLine(line)
  {
    var rest := TrimLineEnd(line)[13..];
    if !EndsWith(rest, " differ") || Trim(rest[..|rest| - 7]) == [] then None
    else
      var pair := BinaryPair(Trim(rest[..|rest| - 7]));
      if pair.None? || pair.value.before == [] || pair.value.after == [] then None else pair
  }

  /** The prefix of a rename or copy line. */
  function RelocationPrefix(line: string): Option<string> {
    if "rename from " <= line then Some("rename from ")
    else if "rename to " <= line then Some("rename to ")
    else if "copy from " <= line then Some("copy from ")
    else if "copy to " <= line then Some("copy to ")
    else None
  }

  /** The paths of one line, none for an ordinary line; a metadata line without paths is an error. */
  function LinePaths(line: string): Option<seq<string>> {
    var prefix := RelocationPrefix(line);
    if prefix.Some? then
      var path := TrailingPath(line, prefix.value);
      if path.None? then None else Some([path.value])
    else if IsBinaryLine(line) then
      var pair := BinaryPaths(line);
      if pair.None? then None else Some([pair.value.before, pair.value.after])
    else Some([])
  }

  ghost function Metadata(section: seq<string>, n: nat): Option<seq<string>>
    requires n <= |section|
  {
    if n == 0 then Some([])
    else
      var before, line := Metadata(section, n - 1), LinePaths(section[n - 1]);
      if before.None? || line.None? then None else Some(before.value + line.value)
  }

  /** `extract_git_section_metadata_paths`. */
  method ExtractMetadata(section: seq<string>) returns (r: Option<seq<string>>)
    ensures r == Metadata(section, |section|)
  {
    hide LinePaths;
    var paths := [];
    for n := 0 to |section|
      invariant Metadata(section, n) == Some(paths)
    {
      var line := LinePaths(section[n]);
      if line.None? {
        MetadataFails(section, n + 1, |section|);
        return None;
      }
      paths := paths + line.value;
    }
    return Some(paths);
  }

  lemma {:induction false} MetadataFails(section: seq<string>, m: nat, n: nat)
    requires m <= n <= |section| && Metadata(section, m).None?
    ensures Metadata(section, n).None?
  {
    hide LinePaths;
    if m < n { MetadataFails(section, m, n - 1); }
  }

  /** Every line is read, and its paths are among those of the section. */
  lemma {:induction false} MetadataHas(section: seq<string>, n: nat, i: nat)
    requires i < n <= |section| && Metadata(section, n).Some?
    ensures LinePaths(section[i]).Some?
    ensures forall p :: p in LinePaths(section[i]).value ==> p in Metadata(section, n).value
  {
    hide LinePaths;
    if i < n - 1 { MetadataHas(section, n - 1, i); }
  }

  // ----- a header that cannot be read

  /** `git_header_has_malformed_quotes`, on the header without its line end. */
  predicate QuotesBroken(s: string) {
    if s == [] then false
    else if s[0] != '"' then QuotesBroken(s[1..])
    else
      var inner := Unescape(s[1..]);
      inner.None? || inner.value.consumed == |s| - 1 || QuotesBroken(s[inner.value.consumed + 2..])
  }

  /** The first path, if any, that a line of this kind gives among the first `n`. */
  ghost function FirstTrailing(section: seq<string>, prefix: string, n: nat): Option<string>
    requires n <= |section|
  {
    if n == 0 then None
    else if FirstTrailing(section, prefix, n - 1).Some? then FirstTrailing(section, prefix, n - 1)
    else TrailingPath(section[n - 1], prefix)
  }

  function BinaryLine(line: string): Option<Paths> {
    if IsBinaryLine(line) then BinaryPaths(line) else None
  }

  ghost function FirstBinary(section: seq<string>, n: nat): Option<Paths>
    requires n <= |section|
  {
    if n == 0 then None
    else if FirstBinary(section, n - 1).Some? then FirstBinary(section, n - 1)
    else BinaryLine(section[n - 1])
  }

  ghost function Headers(lines: seq<string>): seq<nat> {
    MarkedBelow(lines, UnifiedHeader, |lines|)
  }

  /** The paths of a `---` and `+++` pair. */
  function PairAt(lines: seq<string>, header: nat): Option<Paths>
    requires header + 1 < |lines|
  {
    PairOf(HeaderPath(lines[header], "--- "), HeaderPath(lines[header + 1], "+++ "))
  }

  function GitPairAt(lines: seq<string>, header: nat): Option<Paths>
    requires header + 1 < |lines|
  {
    PairOf(GitHeaderPath(lines[header], "--- "), GitHeaderPath(lines[header + 1], "+++ "))
  }

  lemma FirstHeader(lines: seq<string>)
    ensures Headers(lines) != [] ==> Headers(lines)[0] + 1 < |lines|
  {
    hide MarkedBelow;
    MarkedBelowFacts(lines, UnifiedHeader, |lines|);
    if Headers(lines) != [] { assert Headers(lines)[0] in Headers(lines); }
  }

  ghost function Fallback(section: seq<string>): Option<Paths> {
    var n := |section|;
    var renamed := PairOf(FirstTrailing(section, "rename from ", n), FirstTrailing(section, "rename to ", n));
    var copied := PairOf(FirstTrailing(section, "copy from ", n), FirstTrailing(section, "copy to ", n));
    FirstHeader(section);
    if renamed.Some? then renamed
    else if copied.Some? then copied
    else if FirstBinary(section, n).Some? then FirstBinary(section, n)
    else if Headers(section) != [] then PairAt(section, Headers(section)[0])
    else None
  }

  /** `parse_git_section_paths_fallback`. */
  method FindFallback(section: seq<string>) returns (r: Option<Paths>)
    ensures r == Fallback(section)
  {
    hide TrailingPath, BinaryLine, PairAt, MarkedBelow, Marks;
    var renameFrom, renameTo, copyFrom, copyTo: Option<string> := None, None, None, None;
    var binary: Option<Paths> := None;
    for n := 0 to |section|
      invariant renameFrom == FirstTrailing(section, "rename from ", n)
      invariant renameTo == FirstTrailing(section, "rename to ", n)
      invariant copyFrom == FirstTrailing(section, "copy from ", n)
      invariant copyTo == FirstTrailing(section, "copy to ", n)
      invariant binary == FirstBinary(section, n)
    {
      if renameFrom.None? { renameFrom := TrailingPath(section[n], "rename from "); }
      if renameTo.None? { renameTo := TrailingPath(section[n], "rename to "); }
      if copyFrom.None? { copyFrom := TrailingPath(section[n], "copy from "); }
      if copyTo.None? { copyTo := TrailingPath(section[n], "copy to "); }
      if binary.None? { binary := BinaryLine(section[n]); }
    }
    if renameFrom.Some? && renameTo.Some? {
      return Some(Paths(renameFrom.value, renameTo.value));
    }
    if copyFrom.Some? && copyTo.Some? {
      return Some(Paths(copyFrom.value, copyTo.value));
    }
    if binary.Some? {
      return binary;
    }
    var headers := ScanLines(section, UnifiedHeader);
    FirstHeader(section);
    return if headers == [] then None else PairAt(section, headers[0]);
  }

  // ----- the common suffix of two paths

  /** `split('/')` without the empty parts. */
  function Parts(path: string): seq<string>
    decreases |path|
  {
    var split := SplitOnce(path, "/");
    if split.None? then (if path == [] then [] else [path])
    else
      SplitShorter(path, "/");
      (if split.value.left == [] then [] else [split.value.left]) + Parts(split.value.right)
  }

  lemma {:induction false} SplitShorter(s: string, pattern: string)
    requires pattern != []
    ensures var split := SplitOnce(s, pattern); split.Some? ==> s == split.value.left + pattern + split.value.right
  {
    if !(pattern <= s) && s != [] { SplitShorter(s[1..], pattern); }
  }

  predicate IsSuffix<T(==)>(t: seq<T>, s: seq<T>) {
    |t| <= |s| && s[|s| - |t|..] == t
  }

  lemma SuffixGrows<T>(t: seq<T>, s: seq<T>)
    requires s != [] && IsSuffix(t, s[..|s| - 1])
    ensures IsSuffix(t + [s[|s| - 1]], s)
  {
    var n := |s| - 1;
    assert s[n - |t|..] == s[..n][n - |t|..] + [s[n]];
  }

  lemma SuffixShrinks<T>(t: seq<T>, s: seq<T>)
    requires t != [] && IsSuffix(t, s)
    ensures IsSuffix(t[..|t| - 1], s[..|s| - 1]) && t == t[..|t| - 1] + [s[|s| - 1]]
  {
    assert s[|s| - |t|..][|t| - 1] == s[|s| - 1];
    assert s[..|s| - 1][|s| - |t|..] == s[|s| - |t|..][..|t| - 1];
  }

  /** The parts that end both, taken from the back. */
  function CommonTail(a: seq<string>, b: seq<string>): seq<string> {
    if a == [] || b == [] || a[|a| - 1] != b[|b| - 1] then [] else CommonTail(a[..|a| - 1], b[..|b| - 1]) + [a[|a| - 1]]
  }

  /** It is the longest sequence that ends both. */
  lemma {:induction false} LongestCommonTail(a: seq<string>, b: seq<string>, t: seq<string>)
    ensures IsSuffix(CommonTail(a, b), a) && IsSuffix(CommonTail(a, b), b)
    ensures IsSuffix(t, a) && IsSuffix(t, b) ==> IsSuffix(t, CommonTail(a, b))
  {
    if a != [] && b != [] && a[|a| - 1] == b[|b| - 1] {
      var front := if t == [] then [] else t[..|t| - 1];
      LongestCommonTail(a[..|a| - 1], b[..|b| - 1], front);
      var c := CommonTail(a[..|a| - 1], b[..|b| - 1]);
      SuffixGrows(c, a);
      SuffixGrows(c, b);
      if t != [] && IsSuffix(t, a) && IsSuffix(t, b) {
        SuffixShrinks(t, a);
        SuffixShrinks(t, b);
        SuffixGrows(front, CommonTail(a, b));
      }
    }
  }

  function JoinParts(parts: seq<string>): string {
    if |parts| == 0 then "" else if |parts| == 1 then parts[0] else parts[0] + "/" + JoinParts(parts[1..])
  }

  function Suffix(paths: Paths): Option<string> {
    var before, after := Trim(paths.before), Trim(paths.after);
    var common := CommonTail(Parts(before), Parts(after));
    if before == "/dev/null" || after == "/dev/null" || common == [] then None else Some(JoinParts(common))
  }

  // ----- prefixes other than `a/` and `b/`

  lemma {:induction false} CommonLast(s: seq<string>, d: seq<string>, last: string)
    ensures CommonTail(s + [last], d + [last]) == CommonTail(s, d) + [last]
  {
    assert (s + [last])[..|s|] == s && (d + [last])[..|d|] == d;
  }

  /** What is put behind both is common to both, whatever stands in front. */
  lemma {:induction false} CommonTailAppend(s: seq<string>, d: seq<string>, parts: seq<string>)
    ensures CommonTail(s + parts, d + parts) == CommonTail(s, d) + parts
  {
    hide CommonTail;
    if parts == [] {
      assert s + parts == s && d + parts == d && CommonTail(s, d) + parts == CommonTail(s, d);
    } else {
      var front, last := parts[..|parts| - 1], parts[|parts| - 1];
      CommonTailAppend(s, d, front);
      assert parts == front + [last];
      assert s + parts == (s + front) + [last] && d + parts == (d + front) + [last];
      CommonLast(s + front, d + front, last);
      assert CommonTail(s, d) + parts == (CommonTail(s, d) + front) + [last];
    }
  }

  /** Splitting at a slash that is written down splits into the parts of both sides. */
  lemma {:induction false} PartsAppend(a: string, b: string)
    ensures Parts(a + ("/" + b)) == Parts(a) + Parts(b)
    decreases |a|
  {
    hide SplitOnce;
    SplitFirst(a);
    var split := SplitOnce(a, "/");
    if split.None? {
      SplitOnceAt(a, "/", b);
    } else {
      var left, right := split.value.left, split.value.right;
      PartsAppend(right, b);
      assert a + ("/" + b) == left + ("/" + (right + ("/" + b)));
      SplitOnceAt(left, "/", right + ("/" + b));
    }
  }

  lemma {:induction false} SplitFirst(s: string)
    ensures var split := SplitOnce(s, "/");
            if split.Some? then s == split.value.left + ("/" + split.value.right) && '/' !in split.value.left
            else '/' !in s
  {
    if s != [] {
      SplitFirst(s[1..]);
      if s[0] == '/' {
        assert s[..1] == "/" && s == "" + ("/" + s[1..]);
      } else if SplitOnce(s[1..], "/").Some? {
        var rest := SplitOnce(s[1..], "/").value;
        assert s == [s[0]] + s[1..] && s == ([s[0]] + rest.left) + ("/" + rest.right);
      }
    }
  }

  /** A part of a path: not empty, and without a slash. */
  predicate IsName(s: string) {
    s != [] && '/' !in s
  }

  predicate AllNames(names: seq<string>) {
    forall i :: 0 <= i < |names| ==> IsName(names[i])
  }

  lemma {:induction false} PartsOfJoined(names: seq<string>)
    requires AllNames(names)
    ensures Parts(JoinParts(names)) == names
  {
    hide SplitOnce;
    if |names| == 1 {
      NotSplit(names[0], "/");
    } else if |names| > 1 {
      PartsOfJoined(names[1..]);
      PartsAppend(names[0], JoinParts(names[1..]));
      NotSplit(names[0], "/");
      assert JoinParts(names) == names[0] + ("/" + JoinParts(names[1..]));
    } else {
      SplitFirst("");
    }
  }

  /** Names behind a prefix that ends in a slash of its own. */
  function Under(prefix: string, names: seq<string>): string {
    prefix + ("/" + JoinParts(names))
  }

  /** A path without blanks around it that is not the missing file. */
  predicate IsProper(path: string) {
    Trim(path) == path && path != "/dev/null"
  }

  /** `--src-prefix` and `--dst-prefix` may put anything in front: what they do not share is taken off again. */
  lemma {:induction false} CustomPrefixSeen(src: string, dst: string, names: seq<string>)
    requires names != [] && AllNames(names) && CommonTail(Parts(src), Parts(dst)) == []
    requires IsProper(Under(src, names)) && IsProper(Under(dst, names))
    ensures Suffix(Paths(Under(src, names), Under(dst, names))) == Some(JoinParts(names))
  {
    hide Trim, Parts, CommonTail, JoinParts;
    PartsAppend(src, JoinParts(names));
    PartsAppend(dst, JoinParts(names));
    PartsOfJoined(names);
    CommonTailAppend(Parts(src), Parts(dst), names);
    assert CommonTail(Parts(src), Parts(dst)) + names == names;
  }

  method CommonParts(b: seq<string>, a: seq<string>) returns (common: seq<string>)
    ensures common == CommonTail(b, a)
  {
    var i, j := |b|, |a|;
    common := [];
    assert b[..i] == b && a[..j] == a;
    while i > 0 && j > 0 && b[i - 1] == a[j - 1]
      invariant 0 <= i <= |b| && 0 <= j <= |a|
      invariant CommonTail(b, a) == CommonTail(b[..i], a[..j]) + common
    {
      CommonStep(b[..i], a[..j], common);
      assert b[..i][..i - 1] == b[..i - 1] && a[..j][..j - 1] == a[..j - 1];
      common := [b[i - 1]] + common;
      i, j := i - 1, j - 1;
    }
  }

  lemma {:induction false} CommonStep(b: seq<string>, a: seq<string>, common: seq<string>)
    requires b != [] && a != [] && b[|b| - 1] == a[|a| - 1]
    ensures CommonTail(b, a) + common == CommonTail(b[..|b| - 1], a[..|a| - 1]) + ([b[|b| - 1]] + common)
  {
  }

  /** `common_path_suffix`. */
  method FindSuffix(paths: Paths) returns (r: Option<string>)
    ensures r == Suffix(paths)
  {
    hide Trim, Parts, JoinParts, CommonTail;
    var before, after := Trim(paths.before), Trim(paths.after);
    if before == "/dev/null" || after == "/dev/null" {
      return None;
    }
    var common := CommonParts(Parts(before), Parts(after));
    return if common == [] then None else Some(JoinParts(common));
  }

  // ----- the candidates of a git section

  predicate IsRelocated(section: seq<string>) {
    exists i :: 0 <= i < |section| && RelocationPrefix(section[i]).Some?
  }

  /** What the header line names, or else the rest of the section. */
  ghost function HeaderCandidates(section: seq<string>): Option<seq<string>>
    requires section != []
  {
    if SectionPaths(section[0]).Some? then SectionPaths(section[0])
    else if QuotesBroken(TrimLineEnd(section[0])) || Fallback(section).None? then None
    else Some([Fallback(section).value.before, Fallback(section).value.after])
  }

  function SuffixOf(relocated: bool, paths: Paths): seq<string> {
    if relocated || Suffix(paths).None? then [] else [Suffix(paths).value]
  }

  /** Two paths of a header, and what they have in common. */
  function HeaderSuffix(relocated: bool, header: seq<string>): seq<string> {
    if |header| == 2 then SuffixOf(relocated, Paths(header[0], header[1])) else []
  }

  function PairCandidates(relocated: bool, pair: Paths): seq<string> {
    SuffixOf(relocated, pair) + [pair.before, pair.after]
  }

  /** All paths that a section with at most one `---` and `+++` pair is judged by. */
  ghost function GitCandidates(section: seq<string>): Option<seq<string>>
    requires section != []
  {
    var header, metadata, relocated := HeaderCandidates(section), Metadata(section, |section|), IsRelocated(section);
    FirstHeader(section);
    if header.None? || metadata.None? then None
    else
      var named := header.value + metadata.value + HeaderSuffix(relocated, header.value);
      if Headers(section) == [] then Some(named)
      else
        var pair := GitPairAt(section, Headers(section)[0]);
        if pair.None? then None else Some(named + PairCandidates(relocated, pair.value))
  }

  method ReadHeader(section: seq<string>) returns (r: Option<seq<string>>)
    requires section != []
    ensures r == HeaderCandidates(section)
  {
    hide SectionPaths, Fallback, QuotesBroken, TrimLineEnd;
    r := ParseSectionPaths(section[0]);
    if r.Some? || QuotesBroken(TrimLineEnd(section[0])) {
      return;
    }
    var pair := FindFallback(section);
    r := if pair.None? then None else Some([pair.value.before, pair.value.after]);
  }

  method CollectSuffix(relocated: bool, paths: Paths) returns (r: seq<string>)
    ensures r == SuffixOf(relocated, paths)
  {
    hide Suffix;
    if relocated {
      return [];
    }
    var suffix := FindSuffix(paths);
    return if suffix.None? then [] else [suffix.value];
  }

  method CollectGitPaths(section: seq<string>) returns (r: Option<seq<string>>)
    requires section != []
    ensures r == GitCandidates(section)
  {
    hide HeaderCandidates, Metadata, SuffixOf, GitPairAt, MarkedBelow, Marks, RelocationPrefix;
    var header := ReadHeader(section);
    if header.None? {
      return None;
    }
    var metadata := ExtractMetadata(section);
    if metadata.None? {
      return None;
    }
    var relocated := exists i :: 0 <= i < |section| && RelocationPrefix(section[i]).Some?;
    var candidates := header.value + metadata.value;
    if |header.value| == 2 {
      var suffix := CollectSuffix(relocated, Paths(header.value[0], header.value[1]));
      candidates := candidates + suffix;
    }
    assert candidates == header.value + metadata.value + HeaderSuffix(relocated, header.value);
    var headers := ScanLines(section, UnifiedHeader);
    if headers == [] {
      return Some(candidates);
    }
    FirstHeader(section);
    var pair := GitPairAt(section, headers[0]);
    if pair.None? {
      return None;
    }
    var suffix := CollectSuffix(relocated, pair.value);
    return Some(candidates + (suffix + [pair.value.before, pair.value.after]));
  }

  // ----- what the candidates hold

  /** Header, metadata and the `---` and `+++` pair are all among the candidates. */
  lemma CandidatesHold(section: seq<string>)
    requires section != [] && GitCandidates(section).Some?
    ensures SectionPaths(section[0]).Some? ==> forall p :: p in SectionPaths(section[0]).value ==>
            p in GitCandidates(section).value
    ensures forall i :: 0 <= i < |section| ==>
              LinePaths(section[i]).Some? && forall p :: p in LinePaths(section[i]).value ==>
                  p in GitCandidates(section).value
    ensures Headers(section) != [] ==>
              && Headers(section)[0] + 1 < |section| && GitPairAt(section, Headers(section)[0]).Some?
              && var pair := GitPairAt(section, Headers(section)[0]).value;
                 pair.before in GitCandidates(section).value && pair.after in GitCandidates(section).value
  {
    hide SectionPaths, Fallback, QuotesBroken, TrimLineEnd, LinePaths, Metadata, SuffixOf, GitPairAt, MarkedBelow;
    hide Marks, IsRelocated;
    FirstHeader(section);
    forall i | 0 <= i < |section|
      ensures LinePaths(section[i]).Some? && forall p :: p in LinePaths(section[i]).value ==>
              p in GitCandidates(section).value
    {
      MetadataHas(section, |section|, i);
    }
    if Headers(section) != [] {
      var pair := GitPairAt(section, Headers(section)[0]).value;
      var last := SuffixOf(IsRelocated(section), pair) + [pair.before, pair.after];
      assert last[|last| - 2] == pair.before && last[|last| - 1] == pair.after;
    }
  }

  /** So is what the two paths of a header have in common, where nothing is renamed or copied. */
  lemma SuffixIsCandidate(section: seq<string>, before: string, after: string)
    requires section != [] && !IsRelocated(section) && SectionPaths(section[0]) == Some([before, after])
    requires Suffix(Paths(before, after)).Some?
    ensures GitCandidates(section).Some? ==> Suffix(Paths(before, after)).value in GitCandidates(section).value
  {
    hide SectionPaths, Suffix, Metadata, GitPairAt, MarkedBelow, Marks, IsRelocated;
    var header, suffix := [before, after], Suffix(Paths(before, after)).value;
    assert HeaderSuffix(false, header) == [suffix];
    assert suffix in [suffix];
  }

  lemma QuotedIsWhole(path: string)
    ensures WholePath(Quoted(path)) == Some(path)
  {
    hide ParseDiffToken, Quoted, TrimStart, TrimEnd, IsWhitespace;
    GitQuotingRoundTrip("", path, "");
    assert "" + (Quoted(path) + "") == Quoted(path);
    QuotedEnds(path);
    QuoteIsNoBlank();
    UntrimmedStart(Quoted(path));
    TrimEmpty("");
  }

  lemma Relocating(prefix: string, rest: string)
    requires prefix in RELOCATIONS
    ensures RelocationPrefix(prefix + rest) == Some(prefix)
  {
    var line := prefix + rest;
    assert line[..|prefix|] == prefix;
    assert line[0] == prefix[0] && line[7] == prefix[7] && line[5] == prefix[5];
  }

  /** A rename or copy line gives its path, also when git has quoted it. */
  lemma QuotedRelocation(prefix: string, path: string, eol: string)
    requires prefix in RELOCATIONS && AllLineBreaks(eol)
    ensures LinePaths(prefix + (Quoted(path) + eol)) == Some([path])
  {
    hide WholePath, RelocationPrefix, Quoted, IsBinaryLine, TrimLineEnd, IsLineBreak;
    var line := prefix + (Quoted(path) + eol);
    Relocating(prefix, Quoted(path) + eol);
    assert line[|prefix|..] == Quoted(path) + eol;
    QuotedEnds(path);
    QuoteIsNoBlank();
    TrimLineEndOf(Quoted(path), eol);
    QuotedIsWhole(path);
  }

  /** The first character that is not blank is a quote. */
  predicate StartsQuoted(path: string) {
    exists i :: 0 <= i < |path| && path[i] == '"' && AllWhitespace(path[..i])
  }

  lemma {:induction false} QuotedIffStarts(path: string)
    ensures IsQuoted(path) <==> StartsQuoted(path)
  {
    hide TrimStart, IsWhitespace;
    var t := TrimStart(path);
    var n := |path| - |t|;
    if IsQuoted(path) {
      assert path[n] == t[0] && AllWhitespace(path[..n]);
    }
    if StartsQuoted(path) {
      QuoteIsNoBlank();
      var i :| 0 <= i < |path| && path[i] == '"' && AllWhitespace(path[..i]);
      TrimStartOf(path[..i], path[i..]);
      assert path[..i] + path[i..] == path;
    }
  }

  /** An unquoted path is all that follows, blanks included. */
  lemma {:induction false} UnquotedIsWhole(path: string)
    requires !StartsQuoted(path)
    ensures WholePath(path) == Some(path)
  {
    hide IsQuoted, StartsQuoted;
    QuotedIffStarts(path);
  }

  /** A rename or copy line with an unquoted path gives that path. */
  lemma {:induction false} UnquotedRelocation(prefix: string, path: string, eol: string)
    requires prefix in RELOCATIONS && AllLineBreaks(eol)
    requires path != [] && !IsLineBreak(path[|path| - 1]) && !StartsQuoted(path)
    ensures LinePaths(prefix + (path + eol)) == Some([path])
  {
    hide WholePath, RelocationPrefix, IsBinaryLine, TrimLineEnd, IsLineBreak, StartsQuoted;
    var line := prefix + (path + eol);
    Relocating(prefix, path + eol);
    assert line[|prefix|..] == path + eol;
    TrimLineEndOf(path, eol);
    UnquotedIsWhole(path);
  }

  /** In a git section, an unquoted `---` or `+++` path without a tab is all that follows, blanks included. */
  lemma {:induction false} UnquotedGitPath(prefix: string, path: string, eol: string)
    requires AllLineBreaks(eol) && '\t' !in path
    requires path != [] && !IsLineBreak(path[|path| - 1]) && !StartsQuoted(path)
    ensures GitHeaderPath(prefix + (path + eol), prefix) == Some(path)
  {
    hide TrimLineEnd, IsLineBreak, IsQuoted, StartsQuoted, SplitOnce, IsHeaderMetadata;
    var line := prefix + (path + eol);
    assert prefix <= line && line[|prefix|..] == path + eol;
    TrimLineEndOf(path, eol);
    QuotedIffStarts(path);
    NotSplit(path, "\t");
  }

  // ----- binary lines

  function BinaryLineOf(before: string, quoteBefore: bool, after: string, quoteAfter: bool): string {
    "Binary files " + ((TokenText(before, quoteBefore) + (" and " + TokenText(after, quoteAfter))) + " differ")
  }

  /** A path without blanks around it that does not look quoted. */
  predicate IsPlainPath(path: string) {
    path != [] && path[0] != '"' && !IsWhitespace(path[0]) && !IsWhitespace(path[|path| - 1])
  }

  predicate SideOk(path: string, quoted: bool) {
    path != [] && (quoted || IsPlainPath(path))
  }

  ghost predicate OnlyPlace(s: string, pattern: string, i: nat) {
    forall k: nat :: k <= |s| && pattern <= s[k..] ==> k == i
  }

  lemma {:induction false} NoMatches(s: string, pattern: string, from: nat)
    requires pattern != [] && from <= |s| && forall k: nat :: from <= k <= |s| ==> !(pattern <= s[k..])
    ensures Matches(s, pattern, from) == []
    decreases |s| - from
  {
    if |s| - from >= |pattern| { NoMatches(s, pattern, from + 1); }
  }

  lemma {:induction false} OneMatch(s: string, pattern: string, from: nat, i: nat)
    requires pattern != [] && from <= i <= |s| && pattern <= s[i..] && OnlyPlace(s, pattern, i)
    ensures Matches(s, pattern, from) == [i]
    decreases |s| - from
  {
    assert |s[i..]| == |s| - i;
    if from == i {
      NoMatches(s, pattern, i + |pattern|);
    } else {
      OneMatch(s, pattern, from + 1, i);
    }
  }

  lemma SideReads(path: string, quoted: bool)
    requires SideOk(path, quoted)
    ensures BinaryToken(TokenText(path, quoted)) == Some(path)
    ensures var t := TokenText(path, quoted); t != [] && !IsWhitespace(t[0]) && !IsWhitespace(t[|t| - 1])
  {
    hide WholePath, Quoted, IsWhitespace, Trim;
    var t := TokenText(path, quoted);
    if quoted {
      QuotedEnds(path);
      QuoteIsNoBlank();
      QuotedIsWhole(path);
    } else {
      PlainUnquoted(path);
      UnquotedIsWhole(path);
    }
    Untrimmed(t);
  }

  lemma PlainUnquoted(path: string)
    requires IsPlainPath(path)
    ensures !StartsQuoted(path)
  {
    hide IsWhitespace;
    forall i | 0 <= i < |path| && path[i] == '"' ensures !AllWhitespace(path[..i]) {
      assert path[..i][0] == path[0];
    }
  }

  /** Where ` and ` separates the two sides beyond doubt. */
  ghost predicate Separates(before: string, quoteBefore: bool, after: string, quoteAfter: bool) {
    var b, a := TokenText(before, quoteBefore), TokenText(after, quoteAfter);
    if quoteBefore then TokenOk(after, quoteAfter)
    else
      || b == "/dev/null"
      || (a == "/dev/null" && !("/dev/null and " <= b + (" and " + a)))
      || OnlyPlace(b + (" and " + a), " and ", |b|)
  }

  lemma AndPlaces(b: string, a: string)
    ensures var s := b + (" and " + a);
            && |s| == |b| + 5 + |a| && " and " <= s[|b|..] && s[..|b|] == b && s[|b| + 5..] == a
            && (EndsWith(s, " and /dev/null") ==> " and " <= s[|s| - 14..])
            && ("/dev/null and " <= s ==> " and " <= s[9..])
  {
    var s := b + (" and " + a);
    assert s[|b|..] == " and " + a;
    assert (" and " + a)[..5] == " and ";
    if EndsWith(s, " and /dev/null") { assert s[|s| - 14..][..5] == " and "; }
    if "/dev/null and " <= s { assert s[9..][..5] == s[..14][9..]; }
  }

  lemma {:induction false} DevNullFirst(a: string)
    ensures var s := "/dev/null" + (" and " + a); "/dev/null and " <= s && s[14..] == a && s[0] == '/'
  {
    var s := "/dev/null" + (" and " + a);
    assert s == "/dev/null and " + a;
  }

  lemma {:induction false} PlainPair(b: string, a: string, after: string)
    requires IsPlainPath(b) && BinaryToken(b) == Some(b) && BinaryToken(a) == Some(after) && a != []
    requires || b == "/dev/null"
             || (a == "/dev/null" && !("/dev/null and " <= b + (" and " + a)))
             || OnlyPlace(b + (" and " + a), " and ", |b|)
    requires a == "/dev/null" ==> after == a
    ensures BinaryPair(b + (" and " + a)) == Some(Paths(b, after))
  {
    hide BinaryToken, Matches, PairsAt, IsWhitespace, OnlyPlace;
    var s := b + (" and " + a);
    AndPlaces(b, a);
    assert s[0] == b[0];
    assert "/dev/null and " <= s ==> s[..9] == "/dev/null";
    if b == "/dev/null" {
      DevNullFirst(a);
    } else if "/dev/null and " <= s {
      PlaceIs(s, 9, |b|);
    } else if EndsWith(s, " and /dev/null") {
      EndsInDevNull(b, a);
      if a != "/dev/null" { PlaceIs(s, |s| - 14, |b|); }
    } else {
      NotAtEnd(b, a);
      OneMatch(s, " and ", 0, |b|);
    }
  }

  lemma PlaceIs(s: string, k: nat, i: nat)
    requires OnlyPlace(s, " and ", i) && k <= |s| && " and " <= s[k..]
    ensures k == i
  {
  }

  lemma EndsInDevNull(b: string, a: string)
    ensures var s := b + (" and " + a);
            && (a == "/dev/null" ==> s[..|s| - 14] == b)
            && (EndsWith(s, " and /dev/null") && |s| - 14 == |b| ==> a == "/dev/null")
  {
    var s := b + (" and " + a);
    if EndsWith(s, " and /dev/null") && |s| - 14 == |b| {
      assert s[|b| + 5..] == a;
      assert s[|s| - 14..][5..] == "/dev/null";
    }
  }

  lemma NotAtEnd(b: string, a: string)
    ensures a == "/dev/null" ==> EndsWith(b + (" and " + a), " and /dev/null")
  {
    var s := b + (" and " + a);
    if a == "/dev/null" { assert s[|s| - 14..] == " and " + a && " and " + a == " and /dev/null"; }
  }

  lemma QuotedPair(before: string, after: string, quoteAfter: bool)
    requires TokenOk(after, quoteAfter)
    ensures BinaryPair(Quoted(before) + (" and " + TokenText(after, quoteAfter))) == Some(Paths(before, after))
  {
    hide ParseDiffToken, Quoted, TokenText, TokenOk, TrimStart, Trim, IsWhitespace;
    var a := TokenText(after, quoteAfter);
    var s := Quoted(before) + (" and " + a);
    Blanks();
    QuotedEnds(before);
    assert s[0] == '"';
    GitQuotingRoundTrip("", before, " and " + a);
    assert "" + s == s;
    AndIsNoBlank();
    assert " and " + a == " " + ("and " + a);
    TrimStartOf(" ", "and " + a);
    assert ("and " + a)[..4] == "and " && ("and " + a)[4..] == a;
    TokenReads("", after, quoteAfter, "");
    assert "" + (a + "") == a;
    TrimEmpty("");
  }

  lemma AndIsNoBlank()
    ensures !IsWhitespace('a')
  {
  }

  /** `Binary files P and Q differ` gives both paths, quoted or not, wherever ` and ` separates them beyond doubt. */
  lemma {:induction false} BinaryLineReads(
    before: string, quoteBefore: bool, after: string, quoteAfter: bool, eol: string)
    requires SideOk(before, quoteBefore) && SideOk(after, quoteAfter) && AllLineBreaks(eol)
    requires Separates(before, quoteBefore, after, quoteAfter)
    ensures LinePaths(BinaryLineOf(before, quoteBefore, after, quoteAfter) + eol) == Some([before, after])
  {
    hide BinaryPair, TokenText, IsWhitespace, TrimLineEnd, Trim, BinaryToken, SideOk, Separates;
    var b, a := TokenText(before, quoteBefore), TokenText(after, quoteAfter);
    var s, line := b + (" and " + a), BinaryLineOf(before, quoteBefore, after, quoteAfter);
    SideReads(before, quoteBefore);
    SideReads(after, quoteAfter);
    assert s[0] == b[0] && s[|s| - 1] == a[|a| - 1];
    Untrimmed(s);
    BinaryLineShape(s, eol);
    PairReads(before, quoteBefore, after, quoteAfter);
    SidesNotEmpty(before, quoteBefore, after, quoteAfter);
  }

  lemma SidesNotEmpty(before: string, quoteBefore: bool, after: string, quoteAfter: bool)
    requires SideOk(before, quoteBefore) && SideOk(after, quoteAfter)
    ensures before != [] && after != []
  {
  }

  lemma PairReads(before: string, quoteBefore: bool, after: string, quoteAfter: bool)
    requires SideOk(before, quoteBefore) && SideOk(after, quoteAfter)
    requires Separates(before, quoteBefore, after, quoteAfter)
    ensures TokenText(before, quoteBefore) + (" and " + TokenText(after, quoteAfter)) != []
    ensures BinaryPair(TokenText(before, quoteBefore) + (" and " + TokenText(after, quoteAfter)))
            == Some(Paths(before, after))
  {
    hide BinaryPair, BinaryToken, Quoted, IsWhitespace, OnlyPlace;
    if quoteBefore {
      QuotedPair(before, after, quoteAfter);
    } else {
      SideReads(before, false);
      SideReads(after, quoteAfter);
      if quoteAfter {
        QuotedEnds(after);
        assert TokenText(after, true)[0] == '"';
      }
      PlainPair(before, TokenText(after, quoteAfter), after);
    }
  }

  lemma {:induction false} BinaryLineShape(s: string, eol: string)
    requires s != [] && AllLineBreaks(eol)
    ensures var line := ("Binary files " + (s + " differ")) + eol;
            && RelocationPrefix(line).None? && IsBinaryLine(line)
            && TrimLineEnd(line)[13..] == s + " differ" && EndsWith(s + " differ", " differ")
            && (s + " differ")[..|s + " differ"| - 7] == s
  {
    hide TrimLineEnd, IsLineBreak;
    var core := "Binary files " + (s + " differ");
    var line := core + eol;
    assert core[|core| - 1] == 'r' && line[0] == 'B';
    NoBreakInDiffer();
    TrimLineEndOf(core, eol);
    assert core[..13] == "Binary files " && core[13..] == s + " differ";
  }

  lemma NoBreakInDiffer()
    ensures !IsLineBreak('r')
  {
  }
}
