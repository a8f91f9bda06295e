/** Replacing the file sections of excluded paths in a git or unified diff by a sentinel line. */
module DiffFilter {
  import opened Wrappers
  import opened Text
  import opened Whitespace
  import opened DiffMarks
  import opened GitQuoting
  import opened DiffHeaders
  import opened CandidatePaths

  const OMITTED_SENTINEL := "\"__NOVA_AI_DIFF_OMITTED__\""

  datatype Filtered = Filtered(text: string, omittedAny: bool, parsed: bool)

  // ----- excluded paths

  /** `normalize_diff_path`. */
  function NormalizePath(raw: string, strip: bool): Option<string> {
    var trimmed := Trim(raw);
    if trimmed == "/dev/null" then None
    else
      var path := if strip && (StartsWith(trimmed, "a/") || StartsWith(trimmed, "b/")) then trimmed[2..] else trimmed;
      if path == "" then None else Some(path)
  }

  /** Some candidate names a path, either as it stands or without its `a/` or `b/`. */
  ghost predicate NamesPath(candidates: seq<string>) {
    exists i, strip :: 0 <= i < |candidates| && NormalizePath(candidates[i], strip).Some?
  }

  ghost predicate NamesExcluded(candidates: seq<string>, isExcluded: string -> bool) {
    exists i, strip :: 0 <= i < |candidates| && IsHit(candidates[i], strip, isExcluded)
  }

  predicate IsHit(raw: string, strip: bool, isExcluded: string -> bool) {
    NormalizePath(raw, strip).Some? && isExcluded(NormalizePath(raw, strip).value)
  }

  ghost function Verdict(candidates: seq<string>, isExcluded: string -> bool): Option<bool> {
    if NamesPath(candidates) then Some(NamesExcluded(candidates, isExcluded)) else None
  }

  /** A prefix does not hide a path: it is matched both with and without its `a/` or `b/`. */
  lemma SeenThroughPrefix(dir: string, path: string, isExcluded: string -> bool)
    requires dir == "a/" || dir == "b/"
    requires path != [] && !IsWhitespace(path[|path| - 1]) && (isExcluded(path) || isExcluded(dir + path))
    ensures Verdict([dir + path], isExcluded) == Some(true)
  {
    hide NormalizePath, IsWhitespace;
    PrefixedPath(dir, path);
    var candidates := [dir + path];
    assert IsHit(candidates[0], false, isExcluded) || IsHit(candidates[0], true, isExcluded);
    assert NormalizePath(candidates[0], true).Some?;
  }

  lemma PrefixedPath(dir: string, path: string)
    requires (dir == "a/" || dir == "b/") && path != [] && !IsWhitespace(path[|path| - 1])
    ensures NormalizePath(dir + path, false) == Some(dir + path) && NormalizePath(dir + path, true) == Some(path)
  {
    hide Trim, IsWhitespace;
    var raw := dir + path;
    assert raw[0] == dir[0] && raw[1] == dir[1] && raw[|raw| - 1] == path[|path| - 1] && raw[2..] == path;
    Blanks();
    Untrimmed(raw);
  }

  /** The path of a missing file is no path. */
  lemma MissingFileUnseen(candidates: seq<string>, isExcluded: string -> bool)
    ensures Verdict(candidates + ["/dev/null"], isExcluded) == Verdict(candidates, isExcluded)
  {
    hide NormalizePath;
    var more := candidates + ["/dev/null"];
    MissingFile();
    assert forall i :: 0 <= i < |candidates| ==> more[i] == candidates[i];
    assert more[|candidates|] == "/dev/null";
    if NamesPath(candidates) {
      var i, strip :| 0 <= i < |candidates| && NormalizePath(candidates[i], strip).Some?;
      assert NormalizePath(more[i], strip).Some?;
    }
    if NamesExcluded(candidates, isExcluded) {
      var i, strip :| 0 <= i < |candidates| && IsHit(candidates[i], strip, isExcluded);
      assert IsHit(more[i], strip, isExcluded);
    }
  }

  lemma MissingFile()
    ensures forall strip :: NormalizePath("/dev/null", strip) == None
  {
    hide Trim;
    Slashes();
    Untrimmed("/dev/null");
  }

  lemma Slashes()
    ensures !IsWhitespace('/') && !IsWhitespace('l')
  {
  }

  /** The candidate loop, which stops at the first excluded path. */
  method Decide(candidates: seq<string>, isExcluded: string -> bool) returns (r: Option<bool>)
    ensures r == Verdict(candidates, isExcluded)
  {
    hide NormalizePath;
    var anyPath, excluded := false, false;
    var i := 0;
    while i < |candidates| && !excluded
      invariant i <= |candidates|
      invariant anyPath ==> NamesPath(candidates)
      invariant excluded ==> anyPath && NamesExcluded(candidates, isExcluded)
      invariant !excluded ==> forall j, strip :: 0 <= j < i ==> !IsHit(candidates[j], strip, isExcluded)
      invariant !anyPath ==> forall j, strip :: 0 <= j < i ==> NormalizePath(candidates[j], strip).None?
    {
      var asIs := NormalizePath(candidates[i], false);
      if asIs.Some? {
        anyPath := true;
        excluded := isExcluded(asIs.value);
        assert excluded ==> IsHit(candidates[i], false, isExcluded);
      }
      if !excluded {
        var stripped := NormalizePath(candidates[i], true);
        if stripped.Some? {
          anyPath := true;
          excluded := isExcluded(stripped.value);
          assert excluded ==> IsHit(candidates[i], true, isExcluded);
        }
      }
      i := i + 1;
    }
    return if anyPath then Some(excluded) else None;
  }

  // ----- sections

  /** Where section `k` starts, or where the last one ends. */
  function Bound(lines: seq<string>, starts: seq<nat>, k: nat): nat
    requires k <= |starts|
  {
    if k < |starts| then starts[k] else |lines|
  }

  /** Section `k`: its first line up to the first line of the next. */
  function Section(lines: seq<string>, starts: seq<nat>, k: nat): seq<string>
    requires k < |starts| && Increasing(starts, |lines|)
  {
    lines[starts[k]..Bound(lines, starts, k + 1)]
  }

  /** The text with the first `k` sections, each either kept or replaced by the sentinel. */
  ghost function Redact(preamble: string, lines: seq<string>, starts: seq<nat>, verdicts: seq<Option<bool>>,
      sentinel: string, k: nat): string
    requires k <= |starts| == |verdicts| && Increasing(starts, |lines|)
  {
    if k == 0 then preamble
    else
      Redact(preamble, lines, starts, verdicts, sentinel, k - 1)
      + if verdicts[k - 1] == Some(true) then sentinel else Flatten(Section(lines, starts, k - 1))
  }

  /** Preamble and sections partition the lines: with nothing excluded, the text comes back. */
  lemma {:induction false} NothingRedacted(lines: seq<string>, starts: seq<nat>, verdicts: seq<Option<bool>>,
      sentinel: string, k: nat)
    requires 1 <= |starts| == |verdicts| && k <= |starts| && Increasing(starts, |lines|)
    requires forall i :: 0 <= i < |verdicts| ==> verdicts[i] != Some(true)
    ensures Bound(lines, starts, k) <= |lines|
    ensures Redact(Flatten(lines[..starts[0]]), lines, starts, verdicts, sentinel, k)
            == Flatten(lines[..Bound(lines, starts, k)])
  {
    hide Flatten;
    if k > 0 {
      NothingRedacted(lines, starts, verdicts, sentinel, k - 1);
      FlattenStep(lines, starts[k - 1], Bound(lines, starts, k));
    }
  }

  lemma FlattenStep(lines: seq<string>, a: nat, b: nat)
    requires a <= b <= |lines|
    ensures Flatten(lines[..b]) == Flatten(lines[..a]) + Flatten(lines[a..b])
  {
    hide Flatten;
    FlattenConcat(lines[..a], lines[a..b]);
    assert lines[..a] + lines[a..b] == lines[..b];
  }

  /** What filtering comes to once the preamble and the verdict on every section are known. */
  ghost function Outcome(preamble: Filtered, lines: seq<string>, starts: seq<nat>, verdicts: seq<Option<bool>>,
      sentinel: string):
    Result<Filtered, ParseError>
    requires |starts| == |verdicts| && Increasing(starts, |lines|)
  {
    if exists i :: 0 <= i < |verdicts| && verdicts[i].None? then Failure(InvalidHeader)
    else
      Success(Filtered(
                Redact(preamble.text, lines, starts, verdicts, sentinel, |starts|),
                preamble.omittedAny || exists i :: 0 <= i < |verdicts| && verdicts[i] == Some(true),
                true))
  }

  lemma {:induction false} OutcomeUnchanged(preamble: Filtered, lines: seq<string>, starts: seq<nat>,
      verdicts: seq<Option<bool>>, sentinel: string)
    requires 1 <= |starts| == |verdicts| && Increasing(starts, |lines|)
    requires !preamble.omittedAny ==> preamble.text == Flatten(lines[..starts[0]])
    ensures var r := Outcome(preamble, lines, starts, verdicts, sentinel);
            r.Success? && !r.value.omittedAny ==> r.value.text == Flatten(lines)
  {
    hide Flatten, Redact;
    var r := Outcome(preamble, lines, starts, verdicts, sentinel);
    if r.Success? && !r.value.omittedAny {
      NothingRedacted(lines, starts, verdicts, sentinel, |starts|);
      assert lines[..|lines|] == lines;
    }
  }

  // ----- unified diffs

  /** `unified_diff_section_start` of the filter, which looks back at most three lines. */
  function UnifiedStart(lines: seq<string>, header: nat): (start: nat)
    requires header < |lines|
    ensures start <= header
  {
    if header >= 3 && StartsWith(lines[header - 3], "Index: ") && IsDelimiter(lines[header - 2])
       && StartsWith(lines[header - 1], "diff ")
    then header - 3
    else if header >= 2 && StartsWith(lines[header - 2], "Index: ") && IsDelimiter(lines[header - 1]) then header - 2
    else if header >= 1 && (StartsWith(lines[header - 1], "Index: ") || StartsWith(lines[header - 1], "diff "))
    then header - 1
    else header
  }

  /** A section takes in all lines of its longest lead, and no other line in front of its header. */
  lemma {:induction false} UnifiedLead(lines: seq<string>, header: nat)
    requires header < |lines|
    ensures StartsWithLead(lines, header, UnifiedStart(lines, header), 3)
  {
    hide IsRule, IsDelimiter;
    var start := UnifiedStart(lines, header);
    forall i | 0 <= i < header ensures IsDelimiter(lines[i]) <==> IsRule(lines[i]) { DelimiterIsRule(lines[i]); }
    forall k: nat | k < start && header - k <= 3 ensures !IsLead(lines[k..header]) {
      assert forall j :: 0 <= j < header - k ==> lines[k..header][j] == lines[k + j];
    }
    assert forall j :: 0 <= j < header - start ==> lines[start..header][j] == lines[start + j];
  }

  /** A section never reaches back into the header pair of an earlier one. */
  lemma UnifiedStartAfter(lines: seq<string>, h: nat, g: nat)
    requires h < g < |lines| && Marks(lines, h, UnifiedHeader) && Marks(lines, g, UnifiedHeader)
    ensures h + 2 <= UnifiedStart(lines, g)
  {
    hide IsDelimiter;
    assert lines[h][0] == '-' && lines[h + 1][0] == '+' && lines[g][0] == '-';
    NotDelimiter(lines[h + 1]);
  }

  ghost function Starts(lines: seq<string>): (starts: seq<nat>)
    ensures |starts| == |Headers(lines)|
  {
    MarkedBelowFacts(lines, UnifiedHeader, |lines|);
    seq(|Headers(lines)|, i requires 0 <= i < |Headers(lines)| => UnifiedStart(lines, Headers(lines)[i]))
  }

  /** The header is one of the lines of its section, and no other header is. */
  ghost predicate OwnsHeader(lines: seq<string>, k: nat)
    requires k < |Starts(lines)|
  {
    && Starts(lines)[k] <= Headers(lines)[k] && Headers(lines)[k] + 2 <= Bound(lines, Starts(lines), k + 1) <= |lines|
    && forall i: nat ::
         Starts(lines)[k] <= i < Bound(lines, Starts(lines), k + 1) && Marks(lines, i, UnifiedHeader) ==>
           i == Headers(lines)[k]
  }

  lemma StartsAfter(lines: seq<string>, i: nat, j: nat)
    requires i < j < |Starts(lines)|
    ensures Starts(lines)[i] <= Headers(lines)[i]
            && Headers(lines)[i] + 2 <= Starts(lines)[j] <= Headers(lines)[j] < |lines|
  {
    hide Marks, UnifiedStart;
    MarkedBelowFacts(lines, UnifiedHeader, |lines|);
    assert Headers(lines)[i] in Headers(lines) && Headers(lines)[j] in Headers(lines);
    UnifiedStartAfter(lines, Headers(lines)[i], Headers(lines)[j]);
  }

  /** Section starts increase strictly, and each section holds exactly its own header pair. */
  lemma UnifiedSections(lines: seq<string>)
    ensures Increasing(Starts(lines), |lines|)
    ensures forall k :: 0 <= k < |Starts(lines)| ==> OwnsHeader(lines, k)
  {
    hide Marks, UnifiedStart, OwnsHeader;
    var starts := Starts(lines);
    forall i, j | 0 <= i < j < |starts| ensures starts[i] < starts[j] { StartsAfter(lines, i, j); }
    forall k | 0 <= k < |starts| ensures starts[k] < |lines| && OwnsHeader(lines, k) { SectionOwnsHeader(lines, k); }
  }

  lemma SectionOwnsHeader(lines: seq<string>, k: nat)
    requires k < |Starts(lines)|
    ensures Starts(lines)[k] < |lines| && OwnsHeader(lines, k)
  {
    hide Marks, UnifiedStart, MarkedBelow;
    var headers, starts := Headers(lines), Starts(lines);
    MarkedBelowFacts(lines, UnifiedHeader, |lines|);
    assert headers[k] in headers;
    HeaderHasPair(lines, headers[k]);
    if k + 1 < |starts| { StartsAfter(lines, k, k + 1); }
    forall i: nat | starts[k] <= i < Bound(lines, starts, k + 1) && Marks(lines, i, UnifiedHeader)
      ensures i == headers[k]
    {
      assert i in headers;
      var m :| 0 <= m < |headers| && headers[m] == i;
      if m < k { StartsAfter(lines, m, k); }
    }
  }

  lemma HeaderLines(lines: seq<string>, k: nat)
    requires k < |Starts(lines)|
    ensures Headers(lines)[k] + 1 < |lines|
  {
    SectionOwnsHeader(lines, k);
  }

  lemma HeaderHasPair(lines: seq<string>, h: nat)
    requires h < |lines| && Marks(lines, h, UnifiedHeader)
    ensures h + 2 <= |lines|
  {
  }

  ghost function UnifiedVerdict(lines: seq<string>, header: nat, isExcluded: string -> bool): Option<bool> {
    if header + 1 >= |lines| then None
    else
      var pair := PairAt(lines, header);
      if pair.None? then None else Verdict([pair.value.before, pair.value.after], isExcluded)
  }

  ghost function UnifiedVerdicts(lines: seq<string>, isExcluded: string -> bool): (v: seq<Option<bool>>)
    ensures |v| == |Headers(lines)|
  {
    seq(|Headers(lines)|, i requires 0 <= i < |Headers(lines)| => UnifiedVerdict(lines, Headers(lines)[i], isExcluded))
  }

  ghost function UnifiedResult(lines: seq<string>, sentinel: string,
      isExcluded: string -> bool): Result<Filtered, ParseError>
  {
    UnifiedSections(lines);
    if Headers(lines) == [] then Failure(NoFileSections)
    else
      Outcome(Filtered(Flatten(lines[..Starts(lines)[0]]), false, true), lines, Starts(lines),
          UnifiedVerdicts(lines, isExcluded), sentinel)
  }

  datatype UnifiedSection = UnifiedSection(start: nat, header: nat)

  /** `sort_by_key(|s| s.start_line)`, which is stable. */
  function SortByStart(sections: seq<UnifiedSection>): seq<UnifiedSection> {
    if sections == [] then [] else InsertByStart(sections[0], SortByStart(sections[1..]))
  }

  function InsertByStart(x: UnifiedSection, sorted: seq<UnifiedSection>): seq<UnifiedSection> {
    if sorted == [] || x.start <= sorted[0].start then [x] + sorted else [sorted[0]] + InsertByStart(x, sorted[1..])
  }

  lemma {:induction false} SortedAlready(sections: seq<UnifiedSection>)
    requires forall i, j :: 0 <= i < j < |sections| ==> sections[i].start < sections[j].start
    ensures SortByStart(sections) == sections
  {
    if sections != [] { SortedAlready(sections[1..]); }
  }

  method FindUnifiedSections(lines: seq<string>) returns (sections: seq<UnifiedSection>)
    ensures |sections| == |Starts(lines)|
    ensures forall i :: 0 <= i < |sections| ==> sections[i] == UnifiedSection(Starts(lines)[i], Headers(lines)[i])
    ensures SortByStart(sections) == sections
  {
    hide UnifiedStart, SortByStart;
    var headers := ScanLines(lines, UnifiedHeader);
    assert forall i :: 0 <= i < |headers| ==> headers[i] in headers;
    sections := [];
    for k := 0 to |headers|
      invariant |sections| == k
      invariant forall i :: 0 <= i < k ==> sections[i] == UnifiedSection(Starts(lines)[i], Headers(lines)[i])
    {
      sections := sections + [UnifiedSection(UnifiedStart(lines, headers[k]), headers[k])];
    }
    UnifiedSections(lines);
    SortedAlready(sections);
  }

  method JudgeUnified(lines: seq<string>, header: nat, isExcluded: string -> bool) returns (v: Option<bool>)
    requires header + 1 < |lines|
    ensures v == UnifiedVerdict(lines, header, isExcluded)
  {
    hide Verdict;
    var before := HeaderPath(lines[header], "--- ");
    if before.None? {
      return None;
    }
    var after := HeaderPath(lines[header + 1], "+++ ");
    if after.None? {
      return None;
    }
    v := Decide([before.value, after.value], isExcluded);
  }

  /** `filter_unified_diff`. Its rejection of two sections with the same start is never taken. */
  method FilterUnified(lines: seq<string>, sentinel: string,
      isExcluded: string -> bool) returns (r: Result<Filtered, ParseError>)
    ensures r == UnifiedResult(lines, sentinel, isExcluded)
    ensures r.Success? ==> r.value.parsed && (!r.value.omittedAny ==> r.value.text == Flatten(lines))
  {
    hide Flatten, UnifiedVerdict, SortByStart, UnifiedStart, Marks, MarkedBelow, OwnsHeader;
    var found := FindUnifiedSections(lines);
    if found == [] {
      return Failure(NoFileSections);
    }
    var sections := SortByStart(found);
    UnifiedSections(lines);
    for i := 1 to |sections| {
      if sections[i].start == sections[i - 1].start {
        assert false;
      }
    }
    ghost var starts, verdicts := Starts(lines), UnifiedVerdicts(lines, isExcluded);
    var out, omitted := Flatten(lines[..sections[0].start]), false;
    ghost var preamble := out;
    for k := 0 to |sections|
      invariant out == Redact(preamble, lines, starts, verdicts, sentinel, k)
      invariant omitted <==> exists i :: 0 <= i < k && verdicts[i] == Some(true)
      invariant forall i :: 0 <= i < k ==> verdicts[i].Some?
    {
      var end := if k + 1 < |sections| then sections[k + 1].start else |lines|;
      HeaderLines(lines, k);
      var v := JudgeUnified(lines, sections[k].header, isExcluded);
      assert verdicts[k] == v;
      if v.None? {
        return Failure(InvalidHeader);
      }
      if v.value {
        omitted := true;
        out := out + sentinel;
      } else {
        out := out + Flatten(lines[sections[k].start..end]);
      }
    }
    OutcomeUnchanged(Filtered(preamble, false, true), lines, starts, verdicts, sentinel);
    return Success(Filtered(out, omitted, true));
  }

  // ----- git diffs

  ghost function GitVerdict(section: seq<string>, isExcluded: string -> bool): Option<bool>
    requires section != []
  {
    if |Headers(section)| > 1 || GitCandidates(section).None? then None
    else Verdict(GitCandidates(section).value, isExcluded)
  }

  ghost function GitStarts(lines: seq<string>): seq<nat> {
    MarkedBelow(lines, GitSection, |lines|)
  }

  ghost function GitVerdicts(lines: seq<string>, isExcluded: string -> bool): (v: seq<Option<bool>>)
    ensures |v| == |GitStarts(lines)|
  {
    MarkedBelowFacts(lines, GitSection, |lines|);
    seq(|GitStarts(lines)|, k requires 0 <= k < |GitStarts(lines)| => GitVerdict(Section(lines, GitStarts(lines), k),
        isExcluded))
  }

  /** The lines in front of the first git section may hold unified sections of their own. */
  ghost function PreambleResult(lines: seq<string>, sentinel: string,
      isExcluded: string -> bool): Result<Filtered, ParseError>
  {
    if Headers(lines) == [] then Success(Filtered(Flatten(lines), false, true))
    else UnifiedResult(lines, sentinel, isExcluded)
  }

  ghost function GitResult(lines: seq<string>, sentinel: string,
      isExcluded: string -> bool): Result<Filtered, ParseError>
  {
    var starts := GitStarts(lines);
    MarkedBelowFacts(lines, GitSection, |lines|);
    if starts == [] then Failure(NoFileSections)
    else
      var preamble := PreambleResult(lines[..starts[0]], sentinel, isExcluded);
      if preamble.Failure? then preamble
      else Outcome(preamble.value, lines, starts, GitVerdicts(lines, isExcluded), sentinel)
  }

  method FilterPreamble(lines: seq<string>, sentinel: string,
      isExcluded: string -> bool) returns (r: Result<Filtered, ParseError>)
    ensures r == PreambleResult(lines, sentinel, isExcluded)
    ensures r.Success? ==> r.value.parsed && (!r.value.omittedAny ==> r.value.text == Flatten(lines))
  {
    hide Flatten, UnifiedResult;
    var headers := ScanLines(lines, UnifiedHeader);
    if headers != [] {
      r := FilterUnified(lines, sentinel, isExcluded);
    } else {
      r := Success(Filtered(Flatten(lines), false, true));
    }
  }

  method JudgeGit(section: seq<string>, isExcluded: string -> bool) returns (v: Option<bool>)
    requires section != []
    ensures v == GitVerdict(section, isExcluded)
  {
    hide Verdict, GitCandidates;
    var headers := ScanLines(section, UnifiedHeader);
    if |headers| > 1 {
      return None;
    }
    var paths := CollectGitPaths(section);
    if paths.None? {
      return None;
    }
    v := Decide(paths.value, isExcluded);
  }

  /** `filter_git_diff`. */
  method FilterGit(lines: seq<string>, sentinel: string,
      isExcluded: string -> bool) returns (r: Result<Filtered, ParseError>)
    ensures r == GitResult(lines, sentinel, isExcluded)
    ensures r.Success? ==> r.value.parsed && (!r.value.omittedAny ==> r.value.text == Flatten(lines))
  {
    hide Flatten, GitVerdict, Marks, MarkedBelow, PreambleResult;
    var starts := ScanLines(lines, GitSection);
    if starts == [] {
      return Failure(NoFileSections);
    }
    var preamble := FilterPreamble(lines[..starts[0]], sentinel, isExcluded);
    if preamble.Failure? {
      return preamble;
    }
    ghost var verdicts := GitVerdicts(lines, isExcluded);
    var out, omitted := preamble.value.text, preamble.value.omittedAny;
    for k := 0 to |starts|
      invariant out == Redact(preamble.value.text, lines, starts, verdicts, sentinel, k)
      invariant omitted <==> preamble.value.omittedAny || exists i :: 0 <= i < k && verdicts[i] == Some(true)
      invariant forall i :: 0 <= i < k ==> verdicts[i].Some?
    {
      var end := if k + 1 < |starts| then starts[k + 1] else |lines|;
      var v := JudgeGit(lines[starts[k]..end], isExcluded);
      assert verdicts[k] == v;
      if v.None? {
        return Failure(InvalidHeader);
      }
      if v.value {
        omitted := true;
        out := out + sentinel;
      } else {
        out := out + Flatten(lines[starts[k]..end]);
      }
    }
    OutcomeUnchanged(preamble.value, lines, starts, verdicts, sentinel);
    return Success(Filtered(out, omitted, true));
  }

  // ----- the filter

  predicate EndsCrLf(line: string) {
    |line| >= 2 && line[|line| - 2..] == "\r\n"
  }

  /** CRLF exactly when some line ends so and no line ends in a bare LF. */
  ghost function Newline(lines: seq<string>): string {
    if (exists i :: 0 <= i < |lines| && EndsCrLf(lines[i]))
       && (forall i :: 0 <= i < |lines| && EndsLine(lines[i]) ==> EndsCrLf(lines[i]))
    then "\r\n" else "\n"
  }

  /** `newline_style_for_sentinel`. */
  method NewlineStyle(lines: seq<string>) returns (newline: string)
    ensures newline == Newline(lines)
  {
    var sawCrLf, sawLf := false, false;
    for n := 0 to |lines|
      invariant sawCrLf <==> exists i :: 0 <= i < n && EndsCrLf(lines[i])
      invariant sawLf <==> exists i :: 0 <= i < n && EndsLine(lines[i]) && !EndsCrLf(lines[i])
    {
      if EndsCrLf(lines[n]) {
        sawCrLf := true;
      } else if EndsLine(lines[n]) {
        sawLf := true;
      }
    }
    return if sawCrLf && !sawLf then "\r\n" else "\n";
  }

  ghost function SentinelLine(diff: string): string {
    OMITTED_SENTINEL + Newline(SplitInclusive(diff))
  }

  /** Git sections if there is any git header line, else unified sections. */
  ghost function Filtering(diff: string, isExcluded: string -> bool): Result<Filtered, ParseError> {
    var lines := SplitInclusive(diff);
    if GitStarts(lines) != [] then GitResult(lines, SentinelLine(diff), isExcluded)
    else UnifiedResult(lines, SentinelLine(diff), isExcluded)
  }

  /**
   `filter_diff_for_excluded_paths`. A diff whose sections cannot all be read gives way to one
   sentinel line; a diff from which nothing was omitted comes back as it was.
   */
  method FilterDiff(diff: string, isExcluded: string -> bool) returns (r: Filtered)
    ensures AllWhitespace(diff) ==> r == Filtered(diff, false, true)
    ensures !AllWhitespace(diff) ==>
              r == if Filtering(diff, isExcluded).Success? then Filtering(diff, isExcluded).value
                  else Filtered(SentinelLine(diff), true, false)
    ensures !r.omittedAny ==> r.parsed && r.text == diff
  {
    hide Flatten, UnifiedResult, GitResult, SplitInclusive, Marks, MarkedBelow, Newline;
    TrimEmpty(diff);
    if Trim(diff) == [] {
      return Filtered(diff, false, true);
    }
    var lines := SplitInclusive(diff);
    LinesOfDiff(diff);
    var newline := NewlineStyle(lines);
    var sentinel := OMITTED_SENTINEL + newline;
    var git := ScanLines(lines, GitSection);
    var result;
    if git != [] {
      result := FilterGit(lines, sentinel, isExcluded);
    } else {
      result := FilterUnified(lines, sentinel, isExcluded);
    }
    return if result.Success? then result.value else Filtered(sentinel, true, false);
  }

  lemma {:induction false} LinesOfDiff(diff: string)
    ensures Flatten(SplitInclusive(diff)) == diff
  {
    SplitInclusiveFacts(diff);
  }

  /** With nothing to exclude, a diff that can be read is returned unchanged. */
  lemma NothingExcluded(diff: string, isExcluded: string -> bool)
    requires forall path :: !isExcluded(path)
    requires Filtering(diff, isExcluded).Success?
    ensures Filtering(diff, isExcluded).value == Filtered(diff, false, true)
  {
    hide Flatten, SplitInclusive, Marks, MarkedBelow, Newline, Redact, Verdict;
    var lines := SplitInclusive(diff);
    LinesOfDiff(diff);
    if GitStarts(lines) != [] {
      GitUnchanged(lines, SentinelLine(diff), isExcluded);
    } else {
      UnifiedUnchanged(lines, SentinelLine(diff), isExcluded);
    }
  }

  lemma {:induction false} UnifiedUnchanged(lines: seq<string>, sentinel: string, isExcluded: string -> bool)
    requires forall path :: !isExcluded(path)
    ensures var r := UnifiedResult(lines, sentinel, isExcluded); r.Success? ==>
            r.value == Filtered(Flatten(lines), false, true)
  {
    hide Flatten, Marks, MarkedBelow, Redact, UnifiedStart;
    UnifiedSections(lines);
    if Headers(lines) != [] {
      OutcomeUnchanged(Filtered(Flatten(lines[..Starts(lines)[0]]), false, true), lines, Starts(lines),
          UnifiedVerdicts(lines, isExcluded), sentinel);
    }
  }

  lemma {:induction false} GitUnchanged(lines: seq<string>, sentinel: string, isExcluded: string -> bool)
    requires forall path :: !isExcluded(path)
    ensures var r := GitResult(lines, sentinel, isExcluded); r.Success? ==>
            r.value == Filtered(Flatten(lines), false, true)
  {
    hide Flatten, Marks, MarkedBelow, Redact, UnifiedResult;
    var starts := GitStarts(lines);
    MarkedBelowFacts(lines, GitSection, |lines|);
    if starts != [] {
      var preamble := PreambleResult(lines[..starts[0]], sentinel, isExcluded);
      UnifiedUnchanged(lines[..starts[0]], sentinel, isExcluded);
      if preamble.Success? { OutcomeUnchanged(preamble.value, lines, starts, GitVerdicts(lines, isExcluded),
          sentinel); }
    }
  }

  // ----- what is kept

  /** No reading of these paths, with or without `a/` and `b/`, is excluded. */
  ghost predicate Spared(paths: seq<string>, isExcluded: string -> bool) {
    forall p, strip :: p in paths ==> !IsHit(p, strip, isExcluded)
  }

  /**
   None of the paths a git section is judged by is excluded: not those of its header line, if it can be
   read, nor of any rename, copy or binary line, nor of its `---` and `+++` pair, all of which have to
   be readable, nor what the two paths of a pair have in common.
   */
  ghost predicate GitSpared(section: seq<string>, isExcluded: string -> bool)
    requires section != []
  {
    && GitCandidates(section).Some? && Spared(GitCandidates(section).value, isExcluded)
    && (SectionPaths(section[0]).Some? ==> Spared(SectionPaths(section[0]).value, isExcluded))
    && (forall i :: 0 <= i < |section| ==>
        LinePaths(section[i]).Some? && Spared(LinePaths(section[i]).value, isExcluded))
    && |Headers(section)| <= 1
    && (Headers(section) != [] ==>
          && Headers(section)[0] + 1 < |section| && GitPairAt(section, Headers(section)[0]).Some?
          && var pair := GitPairAt(section, Headers(section)[0]).value; Spared([pair.before, pair.after], isExcluded))
  }

  lemma VerdictSpares(candidates: seq<string>, isExcluded: string -> bool)
    requires Verdict(candidates, isExcluded) == Some(false)
    ensures Spared(candidates, isExcluded)
  {
    hide IsHit;
    forall p, strip | p in candidates ensures !IsHit(p, strip, isExcluded) {
      var i :| 0 <= i < |candidates| && candidates[i] == p;
      assert !IsHit(candidates[i], strip, isExcluded);
    }
  }

  /** A git section is kept only if its header, metadata and `---` and `+++` pair name nothing excluded. */
  lemma KeptGitSection(section: seq<string>, isExcluded: string -> bool)
    requires section != [] && GitVerdict(section, isExcluded) == Some(false)
    ensures GitSpared(section, isExcluded)
  {
    hide Verdict, IsHit, SectionPaths, LinePaths, GitPairAt, GitCandidates, MarkedBelow, Marks;
    VerdictSpares(GitCandidates(section).value, isExcluded);
    CandidatesHold(section);
  }

  /** A section with a line that names an excluded path is not kept. */
  lemma LineSeen(section: seq<string>, i: nat, paths: seq<string>, path: string, strip: bool,
      isExcluded: string -> bool)
    requires i < |section| && LinePaths(section[i]) == Some(paths) && path in paths && IsHit(path, strip, isExcluded)
    ensures GitVerdict(section, isExcluded) != Some(false)
  {
    hide GitVerdict, IsHit, LinePaths;
    assert !Spared(paths, isExcluded);
    assert !GitSpared(section, isExcluded);
    if GitVerdict(section, isExcluded) == Some(false) { KeptGitSection(section, isExcluded); }
  }

  /** A path in a rename or copy line is seen, as git quotes it. */
  lemma QuotedPathSeen(section: seq<string>, i: nat, prefix: string, path: string, eol: string, strip: bool,
      isExcluded: string -> bool)
    requires i < |section| && prefix in RELOCATIONS && AllLineBreaks(eol)
    requires section[i] == prefix + (Quoted(path) + eol) && IsHit(path, strip, isExcluded)
    ensures GitVerdict(section, isExcluded) != Some(false)
  {
    hide GitVerdict, IsHit, LinePaths, Quoted, AllLineBreaks;
    QuotedRelocation(prefix, path, eol);
    LineSeen(section, i, [path], path, strip, isExcluded);
  }

  /** And so it is as git writes it without quotes, blanks included. */
  lemma UnquotedPathSeen(section: seq<string>, i: nat, prefix: string, path: string, eol: string, strip: bool,
      isExcluded: string -> bool)
    requires i < |section| && prefix in RELOCATIONS && AllLineBreaks(eol)
    requires path != [] && !IsLineBreak(path[|path| - 1]) && !StartsQuoted(path)
    requires section[i] == prefix + (path + eol) && IsHit(path, strip, isExcluded)
    ensures GitVerdict(section, isExcluded) != Some(false)
  {
    hide GitVerdict, IsHit, LinePaths, AllLineBreaks, StartsQuoted, IsLineBreak;
    UnquotedRelocation(prefix, path, eol);
    LineSeen(section, i, [path], path, strip, isExcluded);
  }

  /** Both paths of a binary line are seen. */
  lemma BinaryPathSeen(section: seq<string>, i: nat, before: string, quoteBefore: bool, after: string, quoteAfter: bool,
      eol: string, strip: bool, isExcluded: string -> bool)
    requires i < |section| && SideOk(before, quoteBefore) && SideOk(after, quoteAfter) && AllLineBreaks(eol)
    requires Separates(before, quoteBefore, after, quoteAfter)
    requires section[i] == BinaryLineOf(before, quoteBefore, after, quoteAfter) + eol
    requires IsHit(before, strip, isExcluded) || IsHit(after, strip, isExcluded)
    ensures GitVerdict(section, isExcluded) != Some(false)
  {
    hide GitVerdict, IsHit, LinePaths, AllLineBreaks, SideOk, Separates, BinaryLineOf;
    BinaryLineReads(before, quoteBefore, after, quoteAfter, eol);
    var path := if IsHit(before, strip, isExcluded) then before else after;
    assert path in [before, after];
    LineSeen(section, i, [before, after], path, strip, isExcluded);
  }

  /** The path of a combined diff is seen. */
  lemma CombinedPathSeen(section: seq<string>, prefix: string, path: string, quoted: bool, eol: string, strip: bool,
      isExcluded: string -> bool)
    requires section != [] && prefix in {"diff --cc ", "diff --combined "} && CombinedOk(path, quoted)
    requires AllLineBreaks(eol) && section[0] == prefix + (TokenText(path, quoted) + eol)
    requires IsHit(path, strip, isExcluded)
    ensures GitVerdict(section, isExcluded) != Some(false)
  {
    hide GitVerdict, IsHit, SectionPaths, AllLineBreaks, TokenText, LinePaths, GitPairAt, MarkedBelow, GitCandidates;
    CombinedHeader(prefix, path, quoted, eol);
    assert path in [path];
    assert !GitSpared(section, isExcluded);
    if GitVerdict(section, isExcluded) == Some(false) { KeptGitSection(section, isExcluded); }
  }

  lemma SuffixExcluded(section: seq<string>, before: string, after: string, strip: bool, isExcluded: string -> bool)
    requires section != [] && !IsRelocated(section) && SectionPaths(section[0]) == Some([before, after])
    requires Suffix(Paths(before, after)).Some? && IsHit(Suffix(Paths(before, after)).value, strip, isExcluded)
    ensures GitVerdict(section, isExcluded) != Some(false)
  {
    hide Suffix, IsHit, IsRelocated, SectionPaths, GitVerdict, LinePaths, GitPairAt, MarkedBelow, GitCandidates;
    SuffixIsCandidate(section, before, after);
    assert !GitSpared(section, isExcluded);
    if GitVerdict(section, isExcluded) == Some(false) { KeptGitSection(section, isExcluded); }
  }

  /** A path is seen through any two prefixes that have no last directory in common. */
  lemma {:induction false} CustomPrefixExcluded(
    section: seq<string>, src: string, quoteSrc: bool, dst: string, quoteDst: bool, names: seq<string>, eol: string,
    strip: bool, isExcluded: string -> bool)
    requires names != [] && AllNames(names) && CommonTail(Parts(src), Parts(dst)) == []
    requires IsProper(Under(src, names)) && TokenOk(Under(src, names), quoteSrc)
    requires IsProper(Under(dst, names)) && TokenOk(Under(dst, names), quoteDst)
    requires section != [] && !IsRelocated(section) && AllLineBreaks(eol)
    requires section[0] == HeaderLine(Under(src, names), quoteSrc, Under(dst, names), quoteDst) + eol
    requires IsHit(JoinParts(names), strip, isExcluded)
    ensures GitVerdict(section, isExcluded) != Some(false)
  {
    hide Parts, CommonTail, JoinParts, Under, IsHit, TokenOk, IsRelocated, GitVerdict, Suffix, IsProper, SectionPaths;
    hide HeaderLine, AllLineBreaks;
    CustomPrefixSeen(src, dst, names);
    TokenHeader(Under(src, names), quoteSrc, Under(dst, names), quoteDst, eol);
    SuffixExcluded(section, Under(src, names), Under(dst, names), strip, isExcluded);
  }

  /** Every unified section is replaced by the sentinel or names nothing excluded. */
  ghost predicate UnifiedSpared(lines: seq<string>, isExcluded: string -> bool) {
    forall k :: 0 <= k < |Headers(lines)| && UnifiedVerdicts(lines, isExcluded)[k] != Some(true) ==>
                  && Headers(lines)[k] + 1 < |lines| && PairAt(lines, Headers(lines)[k]).Some?
                  && var pair := PairAt(lines, Headers(lines)[k]).value; Spared([pair.before, pair.after], isExcluded)
  }

  lemma KeptUnifiedSection(lines: seq<string>, header: nat, isExcluded: string -> bool)
    requires UnifiedVerdict(lines, header, isExcluded) == Some(false)
    ensures header + 1 < |lines| && PairAt(lines, header).Some?
    ensures var pair := PairAt(lines, header).value; Spared([pair.before, pair.after], isExcluded)
  {
    hide Verdict, IsHit, PairAt;
    var pair := PairAt(lines, header).value;
    VerdictSpares([pair.before, pair.after], isExcluded);
  }

  lemma {:induction false} KeptUnifiedSections(lines: seq<string>, sentinel: string, isExcluded: string -> bool)
    requires Headers(lines) == [] || UnifiedResult(lines, sentinel, isExcluded).Success?
    ensures UnifiedSpared(lines, isExcluded)
  {
    hide UnifiedVerdict, Spared, PairAt, MarkedBelow, Marks, Redact, Flatten, UnifiedStart;
    UnifiedSections(lines);
    forall k | 0 <= k < |Headers(lines)| && UnifiedVerdicts(lines, isExcluded)[k] != Some(true)
      ensures Headers(lines)[k] + 1 < |lines| && PairAt(lines, Headers(lines)[k]).Some?
      ensures var pair := PairAt(lines, Headers(lines)[k]).value; Spared([pair.before, pair.after], isExcluded)
    {
      var v := UnifiedVerdicts(lines, isExcluded)[k];
      assert v == UnifiedVerdict(lines, Headers(lines)[k], isExcluded) && v.Some? && !v.value;
      KeptUnifiedSection(lines, Headers(lines)[k], isExcluded);
    }
  }

  /** Every git section is replaced by the sentinel or names nothing excluded, and so in front of the first. */
  ghost predicate AllSpared(lines: seq<string>, isExcluded: string -> bool) {
    var starts := GitStarts(lines);
    MarkedBelowFacts(lines, GitSection, |lines|);
    if starts == [] then UnifiedSpared(lines, isExcluded)
    else
      && UnifiedSpared(lines[..starts[0]], isExcluded)
      && forall k :: 0 <= k < |starts| && GitVerdicts(lines, isExcluded)[k] != Some(true) ==>
                       Section(lines, starts, k) != [] && GitSpared(Section(lines, starts, k), isExcluded)
  }

  lemma {:induction false} KeptGitSections(lines: seq<string>, sentinel: string, isExcluded: string -> bool)
    requires GitStarts(lines) != [] && GitResult(lines, sentinel, isExcluded).Success?
    ensures AllSpared(lines, isExcluded)
  {
    hide GitVerdict, Marks, MarkedBelow, Redact, Flatten, UnifiedResult, UnifiedSpared, GitSpared;
    var starts := GitStarts(lines);
    MarkedBelowFacts(lines, GitSection, |lines|);
    KeptUnifiedSections(lines[..starts[0]], sentinel, isExcluded);
    forall k | 0 <= k < |starts| && GitVerdicts(lines, isExcluded)[k] != Some(true)
      ensures Section(lines, starts, k) != [] && GitSpared(Section(lines, starts, k), isExcluded)
    {
      var v := GitVerdicts(lines, isExcluded)[k];
      assert v == GitVerdict(Section(lines, starts, k), isExcluded) && v.Some? && !v.value;
      KeptGitSection(Section(lines, starts, k), isExcluded);
    }
  }

  /** A diff that can be read comes back with no section that names an excluded path. */
  lemma {:induction false} NothingExcludedKept(diff: string, isExcluded: string -> bool)
    requires Filtering(diff, isExcluded).Success?
    ensures AllSpared(SplitInclusive(diff), isExcluded)
  {
    hide SplitInclusive, Marks, MarkedBelow, Newline, GitResult, UnifiedResult, UnifiedSpared, GitSpared;
    var lines := SplitInclusive(diff);
    if GitStarts(lines) == [] {
      KeptUnifiedSections(lines, SentinelLine(diff), isExcluded);
    } else {
      KeptGitSections(lines, SentinelLine(diff), isExcluded);
    }
  }
}
