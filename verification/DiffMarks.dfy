/** Lines that mark the sections of a diff. */
module DiffMarks {
  import opened Text
  import opened Whitespace

  /** Strictly increasing line numbers below `n`. */
  ghost predicate Increasing(idx: seq<nat>, n: nat) {
    (forall i :: 0 <= i < |idx| ==> idx[i] < n) && forall i, j :: 0 <= i < j < |idx| ==> idx[i] < idx[j]
  }

  datatype Mark = GitHeader | GitSection | HunkHeader | UnifiedHeader

  predicate Marks(lines: seq<string>, i: nat, mark: Mark)
    requires i < |lines|
  {
    match mark
    case GitHeader => StartsWith(lines[i], "diff --git ")
    case GitSection =>
      StartsWith(lines[i], "diff --git ") || StartsWith(lines[i], "diff --cc ")
      || StartsWith(lines[i], "diff --combined ")
    case HunkHeader => StartsWith(lines[i], "@@")
    case UnifiedHeader => StartsWith(lines[i], "--- ") && i + 1 < |lines| && StartsWith(lines[i + 1], "+++ ")
  }

  /** The marked lines among the first `n`, in order. */
  ghost function MarkedBelow(lines: seq<string>, mark: Mark, n: nat): seq<nat>
    requires n <= |lines|
  {
    if n == 0 then [] else MarkedBelow(lines, mark, n - 1) + (if Marks(lines, n - 1, mark) then [n - 1] else [])
  }

  lemma {:induction false} MarkedBelowFacts(lines: seq<string>, mark: Mark, n: nat)
    requires n <= |lines|
    ensures Increasing(MarkedBelow(lines, mark, n), n)
    ensures forall i: nat :: i in MarkedBelow(lines, mark, n) <==> i < n && Marks(lines, i, mark)
  {
    hide Marks;
    if n > 0 { MarkedBelowFacts(lines, mark, n - 1); }
  }

  method ScanLines(lines: seq<string>, mark: Mark) returns (idx: seq<nat>)
    ensures idx == MarkedBelow(lines, mark, |lines|)
    ensures Increasing(idx, |lines|)
    ensures forall i: nat :: i in idx <==> i < |lines| && Marks(lines, i, mark)
  {
    hide Marks;
    idx := [];
    for n := 0 to |lines|
      invariant idx == MarkedBelow(lines, mark, n)
    {
      if Marks(lines, n, mark) {
        idx := idx + [n];
      }
    }
    MarkedBelowFacts(lines, mark, |lines|);
  }

  /** `is_unified_section_delimiter`: at least three `=` and nothing else. */
  predicate IsDelimiter(line: string) {
    var body := TrimLineEnd(line);
    |body| >= 3 && forall i :: 0 <= i < |body| ==> body[i] == '='
  }

  predicate IsRuledTo(line: string, n: nat) {
    && 3 <= n <= |line| && (forall i :: 0 <= i < n ==> line[i] == '=')
    && forall i :: n <= i < |line| ==> IsLineBreak(line[i])
  }

  /** Some number of `=`, three or more, and the end of the line. */
  ghost predicate IsRule(line: string) {
    exists n: nat :: IsRuledTo(line, n)
  }

  lemma {:induction false} DelimiterIsRule(line: string)
    ensures IsDelimiter(line) <==> IsRule(line)
  {
    hide TrimLineEnd;
    var body := TrimLineEnd(line);
    if IsDelimiter(line) {
      assert forall i :: 0 <= i < |body| ==> line[i] == body[i];
      assert IsRuledTo(line, |body|);
    }
    if IsRule(line) {
      var n: nat :| IsRuledTo(line, n);
      assert line == line[..n] + line[n..];
      TrimLineEndOf(line[..n], line[n..]);
    }
  }

  /**
   Lines that belong to the file whose header pair they stand in front of: a line that starts with
   `Index: `, with or without a rule below it, or a line that starts with `diff `, alone or below both.
   */
  ghost predicate IsLead(lead: seq<string>) {
    match |lead|
    case 1 => "Index: " <= lead[0] || "diff " <= lead[0]
    case 2 => "Index: " <= lead[0] && IsRule(lead[1])
    case 3 => "Index: " <= lead[0] && IsRule(lead[1]) && "diff " <= lead[2]
    case _ => false
  }

  /** The section of the header starts with its longest lead of at most so many lines. */
  ghost predicate StartsWithLead(lines: seq<string>, header: nat, start: nat, most: nat) {
    && start <= header <= |lines| && header - start <= most
    && (start < header ==> IsLead(lines[start..header]))
    && forall k: nat :: k < start && header - k <= most ==> !IsLead(lines[k..header])
  }

  lemma NotDelimiter(line: string)
    requires line != [] && line[0] == '+'
    ensures !IsDelimiter(line)
  {
    hide TrimLineEnd;
  }
}
