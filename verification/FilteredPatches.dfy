/** When filtering a rendered patch without git headers replaces exactly the files that are excluded. */
module FilteredPatches {
  import opened Wrappers
  import opened Text
  import opened Whitespace
  import opened GitQuoting
  import opened DiffMarks
  import opened DiffHeaders
  import opened HunkParsing
  import opened PatchRendering
  import opened CandidatePaths
  import opened DiffFilter

  // ----- lines and their ends

  function WithEnds(lines: seq<string>): (r: seq<string>)
    ensures |r| == |lines| && forall i :: 0 <= i < |r| ==> r[i] == lines[i] + "\n"
  {
    seq(|lines|, i requires 0 <= i < |lines| => lines[i] + "\n")
  }

  lemma {:induction false} SplitJoined(lines: seq<string>)
    requires AllText(lines)
    ensures SplitInclusive(JoinLines(lines)) == WithEnds(lines)
  {
    hide SplitInclusive, WithEnds;
    if lines == [] {
      SplitNothing();
    } else {
      SplitJoined(lines[1..]);
      PatchRendering.SplitFirst(lines[0], JoinLines(lines[1..]));
      assert WithEnds(lines) == [lines[0] + "\n"] + WithEnds(lines[1..]);
    }
  }

  lemma {:induction false} FlattenEnds(lines: seq<string>)
    ensures Flatten(WithEnds(lines)) == JoinLines(lines)
  {
    hide WithEnds;
    if lines != [] {
      FlattenEnds(lines[1..]);
      assert WithEnds(lines) == [lines[0] + "\n"] + WithEnds(lines[1..]);
      assert (lines[0] + "\n") + JoinLines(lines[1..]) == lines[0] + ("\n" + JoinLines(lines[1..]));
    }
  }

  // ----- pairs of lines that look like a file header

  predicate IsPair(lines: seq<string>, i: nat) {
    i + 1 < |lines| && "--- " <= lines[i] && "+++ " <= lines[i + 1]
  }

  /** Line ends do not matter. */
  lemma PairIsMark(lines: seq<string>, i: nat)
    requires i < |lines|
    ensures Marks(WithEnds(lines), i, UnifiedHeader) <==> IsPair(lines, i)
  {
    hide WithEnds;
    PrefixBeforeEnd("--- ", lines[i]);
    if i + 1 < |lines| { PrefixBeforeEnd("+++ ", lines[i + 1]); }
  }

  lemma PrefixBeforeEnd(prefix: string, line: string)
    requires '\n' !in prefix
    ensures prefix <= line + "\n" <==> prefix <= line
  {
    assert (line + "\n")[|line|] == '\n';
    assert |prefix| > |line| ==> !(prefix <= line + "\n");
    if prefix <= line { assert (line + "\n")[..|prefix|] == line[..|prefix|]; }
  }

  /** A removed line that starts with `-- `, directly followed by an added line that starts with `++ `. */
  predicate HidesAt(lines: seq<DiffLine>, i: nat) {
    i + 1 < |lines| && LooksLikeHeader(lines[i]) && lines[i + 1].Add? && "++ " <= lines[i + 1].text
  }

  ghost predicate Hides(lines: seq<DiffLine>) {
    exists i: nat :: HidesAt(lines, i)
  }

  ghost predicate HunksHide(hunks: seq<Hunk>) {
    hunks != [] && (Hides(hunks[0].lines) || HunksHide(hunks[1..]))
  }

  /** Some hunk of the patch holds two lines that look like the header of a file. */
  ghost predicate FilesHide(ws: seq<Written>) {
    ws != [] && (HunksHide(ws[0].file.hunks) || FilesHide(ws[1..]))
  }

  lemma LineKinds(l: DiffLine)
    ensures "--- " <= RenderLine(l) <==> LooksLikeHeader(l)
    ensures "+++ " <= RenderLine(l) <==> l.Add? && "++ " <= l.text
    ensures RenderLine(l) != [] && RenderLine(l)[0] in {' ', '-', '+'}
  {
    var r := RenderLine(l);
    assert r[1..] == l.text && "--- " == "-" + "-- " && "+++ " == "+" + "++ ";
    assert |r| >= 4 ==> r[..4] == [r[0]] + l.text[..3];
  }

  lemma {:induction false} BodyAt(lines: seq<DiffLine>)
    ensures |RenderBody(lines)| == |lines| && forall i :: 0 <= i < |lines| ==>
            RenderBody(lines)[i] == RenderLine(lines[i])
  {
    hide RenderLine;
    if lines != [] { BodyAt(lines[1..]); }
  }

  lemma {:induction false} HunkLineAt(h: Hunk, style: Style, more: seq<string>, i: nat)
    requires Fits(h, style) && i < |RenderHunk(h, style) + more|
    ensures |RenderHunk(h, style)| == |h.lines| + 1
    ensures (RenderHunk(h, style) + more)[i] ==
            if i == 0 then RenderHeader(h, style)
            else if i <= |h.lines| then RenderLine(h.lines[i - 1])
            else more[i - 1 - |h.lines|]
  {
    hide Fits, RenderHeader, RenderLine, RenderBody;
    BodyAt(h.lines);
  }

  /** Lines of a hunk, up to and including the one behind it, that look like a header. */
  lemma {:induction false} HunkPairs(h: Hunk, style: Style, more: seq<string>, i: nat)
    requires Fits(h, style) && (more == [] || !("+++ " <= more[0])) && i < |RenderHunk(h, style)|
    ensures IsPair(RenderHunk(h, style) + more, i) <==> i > 0 && HidesAt(h.lines, i - 1)
  {
    hide Fits, RenderHeader, RenderLine, RenderHunk, LooksLikeHeader;
    HunkLineAt(h, style, more, i);
    if i == 0 {
      HeaderStart(h, style);
      assert !("--- " <= RenderHeader(h, style));
    } else {
      LineKinds(h.lines[i - 1]);
      if i + 1 < |RenderHunk(h, style) + more| { HunkLineAt(h, style, more, i + 1); }
      if i < |h.lines| { LineKinds(h.lines[i]); }
    }
  }

  lemma HeaderStart(h: Hunk, style: Style)
    requires Fits(h, style)
    ensures RenderHeader(h, style) != [] && RenderHeader(h, style)[0] == '@'
  {
    hide RenderRanges;
  }

  lemma {:induction false} HunkLength(h: Hunk, style: Style)
    requires Fits(h, style)
    ensures |RenderHunk(h, style)| == 1 + |h.lines| && RenderHunk(h, style)[0] == RenderHeader(h, style)
  {
    hide RenderHeader, RenderBody;
    BodyAt(h.lines);
  }

  lemma {:induction false} HunksStart(hunks: seq<Hunk>, styles: seq<Style>, tail: seq<string>)
    requires HunksFit(hunks, styles) && (tail == [] || !("+++ " <= tail[0]))
    ensures var all := RenderHunks(hunks, styles) + tail; all == [] || !("+++ " <= all[0])
  {
    hide Fits, Consistent, RenderHeader, RenderBody;
    if hunks != [] {
      HeaderStart(hunks[0], styles[0]);
      assert (RenderHunks(hunks, styles) + tail)[0] == RenderHeader(hunks[0], styles[0]);
    }
  }

  lemma PairBehind(a: seq<string>, b: seq<string>, i: nat)
    requires |a| <= i
    ensures IsPair(a + b, i) <==> IsPair(b, i - |a|)
  {
  }

  /** Nothing in the hunks of a file looks like a header unless two of its lines are of that kind. */
  lemma {:induction false} NoPairInHunks(hunks: seq<Hunk>, styles: seq<Style>, tail: seq<string>, i: nat)
    requires HunksFit(hunks, styles) && (tail == [] || !("+++ " <= tail[0])) && i < |RenderHunks(hunks, styles)|
    requires !HunksHide(hunks)
    ensures !IsPair(RenderHunks(hunks, styles) + tail, i)
  {
    hide Fits, Consistent, RenderHunk, IsPair, HidesAt;
    var first, more := RenderHunk(hunks[0], styles[0]), RenderHunks(hunks[1..], styles[1..]) + tail;
    assert RenderHunks(hunks, styles) + tail == first + more;
    HunksStart(hunks[1..], styles[1..], tail);
    if i < |first| {
      HunkPairs(hunks[0], styles[0], more, i);
      assert i > 0 ==> !HidesAt(hunks[0].lines, i - 1);
    } else {
      PairBehind(first, more, i);
      NoPairInHunks(hunks[1..], styles[1..], tail, i - |first|);
    }
  }

  lemma {:induction false} PairInHunks(hunks: seq<Hunk>, styles: seq<Style>, tail: seq<string>) returns (i: nat)
    requires HunksFit(hunks, styles) && (tail == [] || !("+++ " <= tail[0])) && HunksHide(hunks)
    ensures i < |RenderHunks(hunks, styles)| && IsPair(RenderHunks(hunks, styles) + tail, i)
  {
    hide Fits, Consistent, IsPair, HidesAt, RenderHunk;
    var first, more := RenderHunk(hunks[0], styles[0]), RenderHunks(hunks[1..], styles[1..]) + tail;
    assert RenderHunks(hunks, styles) + tail == first + more;
    HunksStart(hunks[1..], styles[1..], tail);
    if Hides(hunks[0].lines) {
      var k: nat :| HidesAt(hunks[0].lines, k);
      HunkLength(hunks[0], styles[0]);
      HidesWithin(hunks[0].lines, k);
      i := k + 1;
      HunkPairs(hunks[0], styles[0], more, i);
    } else {
      var k := PairInHunks(hunks[1..], styles[1..], tail);
      i := |first| + k;
      PairBehind(first, more, i);
    }
  }

  lemma HidesWithin(lines: seq<DiffLine>, i: nat)
    requires HidesAt(lines, i)
    ensures i + 1 < |lines|
  {
  }

  // ----- where the files start

  ghost predicate Headerless(ws: seq<Written>) {
    AllWellFormed(ws) && forall i :: 0 <= i < |ws| ==> ws[i].preface.NoPreface?
  }

  function Shift(idx: seq<nat>, n: nat): (r: seq<nat>)
    ensures |r| == |idx| && forall i :: 0 <= i < |idx| ==> r[i] == idx[i] + n
  {
    seq(|idx|, i requires 0 <= i < |idx| => idx[i] + n)
  }

  /** The number of the first line of each file. */
  ghost function Fronts(ws: seq<Written>): (r: seq<nat>)
    requires AllWellFormed(ws)
    ensures |r| == |ws|
  {
    if ws == [] then [] else [0] + Shift(Fronts(ws[1..]), |RenderFile(ws[0])|)
  }

  lemma BlockLines(w: Written)
    requires WellFormed(w) && !IsPure(w)
    ensures var r := RenderBlock(w);
            && |r| >= 2 && r[0] == PathLine("--- ", ShownOld(w), w.oldStyle)
            && r[1] == PathLine("+++ ", ShownNew(w), w.newStyle)
            && r[2..] == RenderHunks(w.file.hunks, w.styles)
            && "--- " <= r[0] && "+++ " <= r[1] && PathOk(ShownOld(w), w.oldStyle) && PathOk(ShownNew(w), w.newStyle)
  {
    hide HunksFit, RenderHunks, PathOk, ShownOld, ShownNew, PathLine, PrefaceOk, PrefixesMatch;
    PathLineRoundTrip(ShownOld(w), "--- ", w.oldStyle);
    PathLineRoundTrip(ShownNew(w), "+++ ", w.newStyle);
  }

  /** A file without a git header is its file block. */
  lemma FileIsBlock(w: Written)
    requires WellFormed(w) && w.preface.NoPreface?
    ensures !IsPure(w) && RenderFile(w) == RenderBlock(w)
  {
    hide HunksFit, RenderBlock, PathOk, PrefixesMatch;
    BareFile(w, []);
    assert RenderFile(w) + [] == RenderFile(w) && RenderBlock(w) + [] == RenderBlock(w);
  }

  lemma FileNotEmpty(w: Written)
    requires WellFormed(w)
    ensures RenderFile(w) != []
  {
    hide HunksFit, RenderHunks, PathOk, PathLine, PrefaceOk, PrefixesMatch;
  }

  /** What follows a file without git headers: nothing, or the next file. */
  ghost predicate NextFile(tail: seq<string>) {
    tail == [] || (tail[0] != [] && tail[0][0] == '-')
  }

  lemma {:induction false} FilesNext(ws: seq<Written>)
    requires Headerless(ws)
    ensures NextFile(RenderFiles(ws)) && (ws != [] ==> IsPair(RenderFiles(ws), 0))
  {
    hide WellFormed, RenderFile, RenderBlock, PathLine, RenderHunks, PathOk;
    if ws != [] {
      FileIsBlock(ws[0]);
      BlockLines(ws[0]);
      var r, all := RenderFile(ws[0]), RenderFiles(ws);
      assert all[0] == r[0] && all[1] == r[1];
      DashStart(r[0]);
    }
  }

  lemma DashStart(line: string)
    requires "--- " <= line
    ensures line != [] && line[0] == '-'
  {
  }

  /** In a file block that hides no header, only its first line starts a pair. */
  lemma {:induction false} BlockPairs(w: Written, tail: seq<string>, i: nat)
    requires WellFormed(w) && !IsPure(w) && NextFile(tail) && i < |RenderBlock(w)|
    ensures i == 0 ==> IsPair(RenderBlock(w) + tail, i)
    ensures i > 0 && !HunksHide(w.file.hunks) ==> !IsPair(RenderBlock(w) + tail, i)
  {
    hide RenderBlock, HunksFit, RenderHunks, PathLine, PathOk, PrefaceOk, PrefixesMatch, HunksHide;
    BlockLines(w);
    var r := RenderBlock(w);
    var hunks := RenderHunks(w.file.hunks, w.styles);
    assert r + tail == r[..2] + (hunks + tail);
    if i == 1 {
      assert (r + tail)[1] == r[1] && r[1][0] == '+';
    } else if i > 1 {
      PairBehind(r[..2], hunks + tail, i);
      if !HunksHide(w.file.hunks) { NoPairInHunks(w.file.hunks, w.styles, tail, i - 2); }
    }
  }

  /** Every file starts with a pair; without hidden headers there are no others. */
  lemma {:induction false} PairsAreFronts(ws: seq<Written>, i: nat)
    requires Headerless(ws) && i < |RenderFiles(ws)|
    ensures i in Fronts(ws) ==> IsPair(RenderFiles(ws), i)
    ensures IsPair(RenderFiles(ws), i) && !FilesHide(ws) ==> i in Fronts(ws)
  {
    hide WellFormed, RenderFile, HunksHide, IsPair, Shift;
    var first, rest := RenderFile(ws[0]), RenderFiles(ws[1..]);
    FileIsBlock(ws[0]);
    FileNotEmpty(ws[0]);
    FilesNext(ws[1..]);
    FrontsCons(ws, i);
    if i < |first| {
      BlockPairs(ws[0], rest, i);
    } else {
      PairBehind(first, rest, i);
      PairsAreFronts(ws[1..], i - |first|);
    }
  }

  lemma {:induction false} FrontsCons(ws: seq<Written>, i: nat)
    requires AllWellFormed(ws) && ws != [] && RenderFile(ws[0]) != []
    ensures var n := |RenderFile(ws[0])|; i in Fronts(ws) <==> i == 0 || (i >= n && i - n in Fronts(ws[1..]))
  {
    hide WellFormed, RenderFile, Fronts;
    var n, later := |RenderFile(ws[0])|, Fronts(ws[1..]);
    FrontsIs(ws);
    if i in Fronts(ws) && i != 0 {
      var k :| 0 <= k < |Fronts(ws)| && Fronts(ws)[k] == i;
      assert Shift(later, n)[k - 1] == i;
      assert later[k - 1] == i - n;
    }
    if i >= n && i - n in later {
      var k :| 0 <= k < |later| && later[k] == i - n;
      assert Shift(later, n)[k] == i;
      assert Fronts(ws)[k + 1] == i;
    }
  }

  lemma {:induction false} FrontsIs(ws: seq<Written>)
    requires AllWellFormed(ws) && ws != []
    ensures Fronts(ws) == [0] + Shift(Fronts(ws[1..]), |RenderFile(ws[0])|)
  {
  }

  lemma {:induction false} FrontsIncrease(ws: seq<Written>)
    requires AllWellFormed(ws)
    ensures Increasing(Fronts(ws), |RenderFiles(ws)|)
  {
    hide WellFormed, RenderFile, Fronts;
    if ws != [] {
      FileNotEmpty(ws[0]);
      FrontsIncrease(ws[1..]);
      FrontsIs(ws);
    } else {
      NoFronts();
    }
  }

  lemma NoFronts()
    ensures Fronts([]) == []
  {
  }

  /** The fronts cut the lines into the files. */
  lemma {:induction false} FrontsCut(ws: seq<Written>, k: nat)
    requires AllWellFormed(ws) && k < |ws|
    ensures Fronts(ws)[k] <= Bound(RenderFiles(ws), Fronts(ws), k + 1) <= |RenderFiles(ws)|
    ensures RenderFiles(ws)[Fronts(ws)[k]..Bound(RenderFiles(ws), Fronts(ws), k + 1)] == RenderFile(ws[k])
  {
    hide WellFormed, RenderFile, Fronts, Shift;
    var first, rest := RenderFile(ws[0]), RenderFiles(ws[1..]);
    var later, all := Fronts(ws[1..]), RenderFiles(ws);
    FrontsIs(ws);
    if k > 0 {
      FrontsCut(ws[1..], k - 1);
      assert Fronts(ws)[k] == later[k - 1] + |first|;
      assert Bound(all, Fronts(ws), k + 1) == Bound(rest, later, k) + |first|;
      CutBehind(first, rest, later[k - 1], Bound(rest, later, k));
    } else if |ws| > 1 {
      FirstFront(ws[1..]);
      assert Fronts(ws)[1] == |first|;
    }
  }

  lemma {:induction false} FirstFront(ws: seq<Written>)
    requires AllWellFormed(ws) && ws != []
    ensures Fronts(ws)[0] == 0
  {
  }

  lemma CutBehind(a: seq<string>, b: seq<string>, i: nat, j: nat)
    requires i <= j <= |b|
    ensures (a + b)[i + |a|..j + |a|] == b[i..j]
  {
  }

  // ----- the sections of a rendered patch

  predicate DiffChar(line: string) {
    line != [] && line[0] in {' ', '-', '+', '@'}
  }

  ghost predicate AllDiffChars(lines: seq<string>) {
    forall i :: 0 <= i < |lines| ==> DiffChar(lines[i])
  }

  lemma {:induction false} BodyChars(lines: seq<DiffLine>)
    ensures AllDiffChars(RenderBody(lines))
  {
    hide RenderLine;
    if lines != [] {
      BodyChars(lines[1..]);
      LineKinds(lines[0]);
    }
  }

  lemma {:induction false} HunkChars(hunks: seq<Hunk>, styles: seq<Style>)
    requires HunksFit(hunks, styles)
    ensures AllDiffChars(RenderHunks(hunks, styles))
  {
    hide Fits, Consistent, RenderHeader, RenderBody;
    if hunks != [] {
      HunkChars(hunks[1..], styles[1..]);
      HeaderStart(hunks[0], styles[0]);
      BodyChars(hunks[0].lines);
    }
  }

  lemma BlockChars(w: Written)
    requires WellFormed(w) && !IsPure(w)
    ensures AllDiffChars(RenderBlock(w))
  {
    hide RenderBlock, HunksFit, RenderHunks, PathLine, PathOk, PrefaceOk, PrefixesMatch;
    BlockLines(w);
    HunkChars(w.file.hunks, w.styles);
    var r := RenderBlock(w);
    assert r[0][0] == '-' && r[1][0] == '+';
    assert forall i :: 2 <= i < |r| ==> r[i] == r[2..][i - 2];
  }

  lemma {:induction false} FilesChars(ws: seq<Written>)
    requires Headerless(ws)
    ensures AllDiffChars(RenderFiles(ws))
  {
    hide WellFormed, RenderFile, DiffChar;
    if ws != [] {
      FileIsBlock(ws[0]);
      BlockChars(ws[0]);
      FilesChars(ws[1..]);
    }
  }

  /** Nothing in front of a header pair belongs to its section, and no line is a git header. */
  lemma PlainLines(lines: seq<string>, i: nat)
    requires AllDiffChars(lines) && i < |lines|
    ensures UnifiedStart(WithEnds(lines), i) == i && !Marks(WithEnds(lines), i, GitSection)
  {
    hide WithEnds, IsDelimiter;
    var e := WithEnds(lines);
    assert DiffChar(lines[i]) && e[i][0] == lines[i][0];
    if i >= 1 { assert DiffChar(lines[i - 1]) && e[i - 1][0] == lines[i - 1][0]; }
    if i >= 2 {
      assert DiffChar(lines[i - 2]) && e[i - 2][0] == lines[i - 2][0];
    }
    if i >= 3 { assert DiffChar(lines[i - 3]) && e[i - 3][0] == lines[i - 3][0]; }
  }

  lemma {:induction false} SameNumbers(a: seq<nat>, b: seq<nat>, n: nat)
    requires Increasing(a, n) && Increasing(b, n) && forall i: nat :: i in a <==> i in b
    ensures a == b
  {
    assert a != [] ==> a[0] in a && a[0] in b;
    assert b != [] ==> b[0] in b && b[0] in a;
    if a != [] && b != [] {
      assert a[0] == b[0] by {
        var j :| 0 <= j < |b| && b[j] == a[0];
        var k :| 0 <= k < |a| && a[k] == b[0];
      }
      forall i: nat ensures i in a[1..] <==> i in b[1..] {
        TailMembers(a, n, i);
        TailMembers(b, n, i);
      }
      SameNumbers(a[1..], b[1..], n);
      assert a == [a[0]] + a[1..] && b == [b[0]] + b[1..];
    }
  }

  lemma TailMembers(a: seq<nat>, n: nat, i: nat)
    requires Increasing(a, n) && a != []
    ensures i in a[1..] <==> i in a && i != a[0]
  {
    if i in a && i != a[0] {
      var k :| 0 <= k < |a| && a[k] == i;
      assert a[1..][k - 1] == i;
    }
  }

  /** Without hidden headers, the sections are the files. */
  lemma {:induction false} SectionsAreFiles(ws: seq<Written>)
    requires Headerless(ws) && !FilesHide(ws)
    ensures Headers(WithEnds(RenderFiles(ws))) == Fronts(ws) == Starts(WithEnds(RenderFiles(ws)))
  {
    hide WellFormed, RenderFile, Marks, MarkedBelow, IsPair, FilesHide, Fronts, RenderFiles, UnifiedStart, WithEnds;
    var lines := RenderFiles(ws);
    var e := WithEnds(lines);
    FrontsIncrease(ws);
    MarkedBelowFacts(e, UnifiedHeader, |e|);
    forall i: nat ensures i in Headers(e) <==> i in Fronts(ws) {
      if i < |lines| {
        PairIsMark(lines, i);
        PairsAreFronts(ws, i);
      }
    }
    SameNumbers(Headers(e), Fronts(ws), |e|);
    FilesChars(ws);
    StartsAreHeaders(lines);
  }

  lemma {:induction false} StartsAreHeaders(lines: seq<string>)
    requires AllDiffChars(lines)
    ensures Starts(WithEnds(lines)) == Headers(WithEnds(lines)) && GitStarts(WithEnds(lines)) == []
  {
    hide Marks, MarkedBelow, UnifiedStart, WithEnds, AllDiffChars;
    var e := WithEnds(lines);
    MarkedBelowFacts(e, UnifiedHeader, |e|);
    MarkedBelowFacts(e, GitSection, |e|);
    forall i: nat | i < |lines| ensures UnifiedStart(e, i) == i && !Marks(e, i, GitSection) { PlainLines(lines, i); }
    assert forall k :: 0 <= k < |Headers(e)| ==> Headers(e)[k] in Headers(e);
    if GitStarts(e) != [] { assert GitStarts(e)[0] in GitStarts(e); }
  }

  // ----- the verdict on a file

  /** What follows a path leaves it readable for the filter. */
  predicate TailOk(style: PathStyle) {
    match style
    case Bare => true
    case Noted(note) => IsHeaderMetadata(Trim(note))
    case GitQuoted(behind) => IsHeaderMetadata(Trim(behind))
  }

  lemma PathRest(prefix: string, shown: string, style: PathStyle)
    requires PathOk(shown, style) && IsTextLine(PathLine(prefix, shown, style))
    ensures var line := PathLine(prefix, shown, style) + "\n";
            prefix <= line && TrimLineEnd(line[|prefix|..]) == PathLine("", shown, style)
  {
    hide TrimLineEnd, Quoted, IsWhitespace;
    var whole, rest := PathLine(prefix, shown, style), PathLine("", shown, style);
    assert whole == prefix + rest;
    QuotedEnds(shown);
    assert rest != [] && rest[|rest| - 1] == whole[|whole| - 1];
    assert (whole + "\n")[|prefix|..] == rest + "\n";
    assert rest[|rest| - 1] in whole;
    TrimLineEndOf(rest, "\n");
  }

  lemma {:induction false} BarePath(shown: string)
    requires PathOk(shown, Bare)
    ensures !IsQuoted(shown) && BeforeTab(shown).None? && TrimStart(shown) == shown && TokenEnd(shown) == |shown|
  {
    hide IsWhitespace, TrimStart, TokenEnd, SplitOnce;
    UntrimmedStart(shown);
    WordHasNoTab(shown);
    NotSplit(shown, "\t");
    TokenEndOf(shown, "");
    assert shown + "" == shown;
  }

  lemma NotedPathReads(shown: string, note: string)
    requires PathOk(shown, Noted(note))
    ensures !IsQuoted(shown + ("\t" + note))
    ensures BeforeTab(shown + ("\t" + note)) == Some(if IsHeaderMetadata(Trim(note)) then Some(shown) else None)
  {
    hide IsWhitespace, TrimStart, TrimEnd, SplitOnce, IsHeaderMetadata;
    var rest := shown + ("\t" + note);
    UntrimmedStart(rest);
    SplitOnceAt(shown, "\t", note);
  }

  lemma QuotedPathReads(shown: string, behind: string)
    requires PathOk(shown, GitQuoted(behind))
    ensures IsQuoted(Quoted(shown) + behind)
    ensures QuotedPath(Quoted(shown) + behind) == if IsHeaderMetadata(Trim(behind)) then Some(shown) else None
  {
    hide IsWhitespace, TrimStart, Trim, IsHeaderMetadata, Quoted, ParseDiffToken;
    var rest := Quoted(shown) + behind;
    QuotedEnds(shown);
    assert rest[0] == '"';
    QuoteIsNoBlank();
    UntrimmedStart(rest);
    GitQuotingRoundTrip("", shown, behind);
    assert "" + rest == rest;
  }

  lemma NothingIsMetadata()
    ensures IsHeaderMetadata(Trim(""))
  {
    TrimEmpty("");
  }

  /** The filter reads a rendered path line exactly if it accepts what follows the path. */
  lemma PathLineFiltered(prefix: string, shown: string, style: PathStyle)
    requires PathOk(shown, style) && IsTextLine(PathLine(prefix, shown, style))
    ensures HeaderPath(PathLine(prefix, shown, style) + "\n", prefix) == if TailOk(style) then Some(shown) else None
  {
    hide PathOk, IsTextLine, TrimLineEnd, IsQuoted, BeforeTab, TrimStart, TokenEnd, Trim, IsHeaderMetadata, Quoted;
    hide QuotedPath;
    PathRest(prefix, shown, style);
    match style {
      case Bare =>
        BarePath(shown);
        NothingIsMetadata();
        assert shown[|shown|..] == "" && shown[..|shown|] == shown && "" + shown == shown;
        PathNotEmpty(shown);
      case Noted(note) =>
        NotedPathReads(shown, note);
        assert PathLine("", shown, style) == shown + ("\t" + note);
      case GitQuoted(behind) =>
        QuotedPathReads(shown, behind);
        assert PathLine("", shown, style) == Quoted(shown) + behind;
    }
  }

  lemma PathNotEmpty(shown: string)
    requires PathOk(shown, Bare)
    ensures shown != []
  {
  }

  ghost predicate TailsOk(w: Written) {
    TailOk(w.oldStyle) && TailOk(w.newStyle)
  }

  /** What two paths of a file that is not renamed have in common. */
  function Shared(w: Written, before: string, after: string): seq<string>
    requires w.preface.GitPreface?
  {
    var common := Suffix(Paths(before, after));
    if w.preface.rename.None? && common.Some? then [common.value] else []
  }

  /** The paths of a file with a git header, as the header gives them or what follows it. */
  ghost function HeaderNames(w: Written): Paths
    requires w.preface.GitPreface?
  {
    if IsClear(w.preface.header) then Paths(w.preface.header.before, w.preface.header.after)
    else if w.preface.rename.Some? then Paths(w.file.oldPath, w.file.newPath)
    else Paths(ShownOld(w), ShownNew(w))
  }

  /** All paths by which a file with a git header is known. */
  ghost function NamesOf(w: Written): seq<string>
    requires w.preface.GitPreface?
  {
    var h := HeaderNames(w);
    [h.before, h.after]
        + (if w.preface.rename.Some? then [w.file.oldPath, w.file.newPath] else [])
        + Shared(w, h.before, h.after)
        + if IsPure(w) then [] else Shared(w, ShownOld(w), ShownNew(w)) + [ShownOld(w), ShownNew(w)]
  }

  /** Whether the file is excluded, or that the filter cannot tell. */
  ghost function Judged(w: Written, isExcluded: string -> bool): Option<bool> {
    if !IsPure(w) && !TailsOk(w) then None
    else if w.preface.NoPreface? then Verdict([ShownOld(w), ShownNew(w)], isExcluded)
    else if HunksHide(w.file.hunks) then None
    else Verdict(NamesOf(w), isExcluded)
  }

  lemma {:induction false} FileJudged(ws: seq<Written>, k: nat, isExcluded: string -> bool)
    requires Headerless(ws) && AllText(RenderFiles(ws)) && k < |ws|
    ensures UnifiedVerdict(WithEnds(RenderFiles(ws)), Fronts(ws)[k], isExcluded) == Judged(ws[k], isExcluded)
  {
    hide WellFormed, RenderFile, RenderBlock, Fronts, RenderFiles, HeaderPath, PathLine, PathOk, Verdict, RenderHunks;
    hide IsTextLine;
    hide WithEnds, TailOk;
    var lines, i, w := RenderFiles(ws), Fronts(ws)[k], ws[k];
    FrontsCut(ws, k);
    FileIsBlock(w);
    BlockLines(w);
    var r := RenderFile(w);
    assert lines[i..Bound(lines, Fronts(ws), k + 1)] == r;
    assert lines[i] == r[0] && lines[i + 1] == r[1];
    assert IsTextLine(lines[i]) && IsTextLine(lines[i + 1]);
    PathLineFiltered("--- ", ShownOld(w), w.oldStyle);
    PathLineFiltered("+++ ", ShownNew(w), w.newStyle);
  }

  // ----- what filtering should give

  /** The first `k` files, the excluded ones replaced. */
  ghost function Wanted(ws: seq<Written>, isExcluded: string -> bool, sentinel: string, k: nat): string
    requires AllWellFormed(ws) && k <= |ws|
  {
    if k == 0 then ""
    else
      Wanted(ws, isExcluded, sentinel, k - 1)
      + if Judged(ws[k - 1], isExcluded) == Some(true) then sentinel else JoinLines(RenderFile(ws[k - 1]))
  }

  ghost function WantedResult(ws: seq<Written>, isExcluded: string -> bool,
      sentinel: string): Result<Filtered, ParseError>
    requires AllWellFormed(ws)
  {
    if exists k :: 0 <= k < |ws| && Judged(ws[k], isExcluded).None? then Failure(InvalidHeader)
    else
      Success(Filtered(
                Wanted(ws, isExcluded, sentinel, |ws|),
                exists k :: 0 <= k < |ws| && Judged(ws[k], isExcluded) == Some(true),
                true))
  }

  /** Filtering replaces exactly the excluded files, or fails exactly if one of them cannot be judged. */
  ghost predicate FilteredAsWanted(ws: seq<Written>, isExcluded: string -> bool)
    requires AllWellFormed(ws)
  {
    var diff := JoinLines(RenderFiles(ws));
    Filtering(diff, isExcluded) == WantedResult(ws, isExcluded, SentinelLine(diff))
  }

  /** Filtering lines of this kind starts a section at every pair. */
  lemma {:induction false} FilteringLines(lines: seq<string>, isExcluded: string -> bool)
    requires AllDiffChars(lines) && AllText(lines) && IsPair(lines, 0)
    ensures var diff, e := JoinLines(lines), WithEnds(lines);
            && Increasing(Starts(e), |e|) && Starts(e) == Headers(e) && Starts(e) != [] && Starts(e)[0] == 0
            && Filtering(diff, isExcluded)
            == Outcome(Filtered("", false, true), e, Starts(e), UnifiedVerdicts(e, isExcluded), SentinelLine(diff))
  {
    hide JoinLines, SplitInclusive, MarkedBelow, Marks, UnifiedStart, Newline, Redact, UnifiedVerdict;
    hide WithEnds, OwnsHeader, AllText, IsPair, AllDiffChars;
    var e := WithEnds(lines);
    SplitJoined(lines);
    StartsAreHeaders(lines);
    UnifiedSections(e);
    FirstIsMarked(lines);
    assert e[..0] == [];
  }

  lemma {:induction false} FilteringSections(ws: seq<Written>, isExcluded: string -> bool)
    requires Headerless(ws) && ws != [] && AllText(RenderFiles(ws))
    ensures var diff, e := JoinLines(RenderFiles(ws)), WithEnds(RenderFiles(ws));
            && Increasing(Starts(e), |e|) && Starts(e) == Headers(e) && Starts(e) != []
            && Filtering(diff, isExcluded)
            == Outcome(Filtered("", false, true), e, Starts(e), UnifiedVerdicts(e, isExcluded), SentinelLine(diff))
  {
    hide WellFormed, RenderFiles, JoinLines, MarkedBelow, Filtering, Outcome, UnifiedVerdicts, WithEnds, AllText;
    hide IsPair, AllDiffChars;
    FilesChars(ws);
    FilesNext(ws);
    FilteringLines(RenderFiles(ws), isExcluded);
  }

  lemma {:induction false} FirstIsMarked(lines: seq<string>)
    requires IsPair(lines, 0)
    ensures var e := WithEnds(lines); Headers(e) != [] && Headers(e)[0] == 0
  {
    hide MarkedBelow, Marks, IsPair, WithEnds;
    var e := WithEnds(lines);
    PairHasLines(lines, 0);
    PairIsMark(lines, 0);
    MarkedBelowFacts(e, UnifiedHeader, |e|);
    assert 0 in Headers(e);
    var k :| 0 <= k < |Headers(e)| && Headers(e)[k] == 0;
  }

  lemma PairHasLines(lines: seq<string>, i: nat)
    requires IsPair(lines, i)
    ensures i + 1 < |lines|
  {
  }

  /** One more file is one more section. */
  lemma {:induction false} RedactedFile(ws: seq<Written>, isExcluded: string -> bool, k: nat)
    requires Headerless(ws) && AllText(RenderFiles(ws)) && !FilesHide(ws) && k < |ws|
    ensures var e := WithEnds(RenderFiles(ws));
            && |UnifiedVerdicts(e, isExcluded)| == |Fronts(ws)| && Increasing(Fronts(ws), |e|)
            && UnifiedVerdicts(e, isExcluded)[k] == Judged(ws[k], isExcluded)
            && Flatten(Section(e, Fronts(ws), k)) == JoinLines(RenderFile(ws[k]))
  {
    hide WellFormed, RenderFile, RenderFiles, Fronts, JoinLines, MarkedBelow, UnifiedVerdict, WithEnds, AllText;
    hide FilesHide, Flatten;
    hide Judged;
    var lines := RenderFiles(ws);
    SectionsAreFiles(ws);
    FrontsIncrease(ws);
    FileJudged(ws, k, isExcluded);
    FrontsCut(ws, k);
    EndsOfCut(lines, Fronts(ws)[k], Bound(lines, Fronts(ws), k + 1));
    FlattenEnds(RenderFile(ws[k]));
  }

  lemma {:induction false} RedactIsWanted(ws: seq<Written>, isExcluded: string -> bool, sentinel: string, k: nat)
    requires Headerless(ws) && AllText(RenderFiles(ws)) && !FilesHide(ws) && k <= |ws|
    ensures var e := WithEnds(RenderFiles(ws));
            && |UnifiedVerdicts(e, isExcluded)| == |Fronts(ws)| && Increasing(Fronts(ws), |e|)
            && Redact("", e, Fronts(ws), UnifiedVerdicts(e, isExcluded), sentinel, k)
                == Wanted(ws, isExcluded, sentinel, k)
  {
    hide WellFormed, RenderFile, RenderFiles, Fronts, JoinLines, UnifiedVerdicts, WithEnds, AllText, FilesHide, Flatten;
    hide Judged, Headers, Section, Increasing;
    SectionsAreFiles(ws);
    FrontsIncrease(ws);
    if k > 0 {
      RedactIsWanted(ws, isExcluded, sentinel, k - 1);
      RedactedFile(ws, isExcluded, k - 1);
    }
  }

  lemma EndsOfCut(lines: seq<string>, i: nat, j: nat)
    requires i <= j <= |lines|
    ensures WithEnds(lines)[i..j] == WithEnds(lines[i..j])
  {
    hide WithEnds;
  }

  /** Without hidden headers, whatever is excluded, filtering does what it should. */
  lemma {:induction false} FilteredExactly(ws: seq<Written>, isExcluded: string -> bool)
    requires Headerless(ws) && ws != [] && AllText(RenderFiles(ws)) && !FilesHide(ws)
    ensures FilteredAsWanted(ws, isExcluded)
  {
    hide WellFormed, RenderFiles, Fronts, JoinLines, MarkedBelow, UnifiedVerdict, WithEnds, AllText, FilesHide, Flatten;
    hide Redact, Wanted;
    hide Filtering, Judged;
    var diff, e := JoinLines(RenderFiles(ws)), WithEnds(RenderFiles(ws));
    FilteringSections(ws, isExcluded);
    SectionsAreFiles(ws);
    RedactIsWanted(ws, isExcluded, SentinelLine(diff), |ws|);
    forall k | 0 <= k < |ws|
      ensures UnifiedVerdicts(e, isExcluded)[k] == Judged(ws[k], isExcluded)
    {
      FileJudged(ws, k, isExcluded);
    }
  }

  /** A file that cannot be judged makes filtering fail, hidden headers or not. */
  lemma {:induction false} UnreadableFails(ws: seq<Written>, k: nat, isExcluded: string -> bool)
    requires Headerless(ws) && AllText(RenderFiles(ws)) && k < |ws| && Judged(ws[k], isExcluded).None?
    ensures FilteredAsWanted(ws, isExcluded)
  {
    hide WellFormed, RenderFiles, Fronts, JoinLines, MarkedBelow, UnifiedVerdict, WithEnds, AllText, Flatten, Redact;
    hide Wanted, Marks;
    hide Filtering, Judged, IsPair;
    var lines := RenderFiles(ws);
    var e := WithEnds(lines);
    FilteringSections(ws, isExcluded);
    FrontsIncrease(ws);
    var i := Fronts(ws)[k];
    assert i in Fronts(ws);
    PairsAreFronts(ws, i);
    PairIsMark(lines, i);
    MarkedBelowFacts(e, UnifiedHeader, |e|);
    var m :| 0 <= m < |Headers(e)| && Headers(e)[m] == i;
    FileJudged(ws, k, isExcluded);
    assert UnifiedVerdicts(e, isExcluded)[m].None?;
  }

  // ----- hidden headers make a difference

  /** A pair inside a hunk is not where a file starts. */
  lemma {:induction false} HiddenPair(ws: seq<Written>) returns (i: nat)
    requires Headerless(ws) && FilesHide(ws)
    ensures i < |RenderFiles(ws)| && IsPair(RenderFiles(ws), i) && i !in Fronts(ws)
  {
    hide WellFormed, RenderFile, HunksHide, IsPair, Fronts;
    var first, rest := RenderFile(ws[0]), RenderFiles(ws[1..]);
    FileIsBlock(ws[0]);
    FileNotEmpty(ws[0]);
    if HunksHide(ws[0].file.hunks) {
      FilesNext(ws[1..]);
      i := PairInBlock(ws[0], rest);
    } else {
      var k := HiddenPair(ws[1..]);
      i := |first| + k;
      PairBehind(first, rest, i);
    }
    FrontsCons(ws, i);
  }

  lemma {:induction false} PairInBlock(w: Written, tail: seq<string>) returns (i: nat)
    requires WellFormed(w) && !IsPure(w) && NextFile(tail) && HunksHide(w.file.hunks)
    ensures 0 < i < |RenderBlock(w)| && IsPair(RenderBlock(w) + tail, i)
  {
    hide RenderBlock, HunksFit, RenderHunks, PathLine, PathOk, PrefaceOk, PrefixesMatch, HunksHide, IsPair;
    BlockLines(w);
    var r, hunks := RenderBlock(w), RenderHunks(w.file.hunks, w.styles);
    var k := PairInHunks(w.file.hunks, w.styles, tail);
    i := k + 2;
    assert r + tail == r[..2] + (hunks + tail);
    PairBehind(r[..2], hunks + tail, i);
  }

  lemma {:induction false} NoMore(a: seq<nat>, b: seq<nat>, n: nat)
    requires Increasing(a, n) && Increasing(b, n) && forall i :: i in a ==> i in b
    ensures |a| <= |b|
    decreases |b|
  {
    if a != [] {
      assert a[0] in a && a[0] in b;
      var rest := if a[0] == b[0] then a[1..] else a;
      forall i | i in rest ensures i in b[1..] {
        assert i in a;
        TailMembers(a, n, i);
        TailMembers(b, n, i);
        if a[0] != b[0] { NotBefore(a, b, n); }
      }
      NoMore(rest, b[1..], n);
    }
  }

  lemma NotBefore(a: seq<nat>, b: seq<nat>, n: nat)
    requires Increasing(a, n) && Increasing(b, n) && a != [] && a[0] in b && a[0] != b[0]
    ensures b[0] !in a
  {
    var k :| 0 <= k < |b| && b[k] == a[0];
    assert b[0] < a[0];
  }

  lemma Outnumbered(a: seq<nat>, b: seq<nat>, n: nat, x: nat)
    requires Increasing(a, n) && Increasing(b, n) && (forall i :: i in a ==> i in b) && x in b && x !in a
    ensures |a| < |b|
  {
    var j :| 0 <= j < |b| && b[j] == x;
    var others := b[..j] + b[j + 1..];
    forall i | i in a ensures i in others {
      var k :| 0 <= k < |b| && b[k] == i;
      assert others[if k < j then k else k - 1] == i;
    }
    NoMore(a, others, n);
  }

  lemma {:induction false} MoreSections(ws: seq<Written>)
    requires Headerless(ws) && FilesHide(ws)
    ensures |Headers(WithEnds(RenderFiles(ws)))| > |ws|
  {
    hide WellFormed, RenderFiles, Fronts, MarkedBelow, Marks, IsPair, WithEnds, FilesHide;
    var lines := RenderFiles(ws);
    var e := WithEnds(lines);
    FrontsIncrease(ws);
    MarkedBelowFacts(e, UnifiedHeader, |e|);
    var x := HiddenPair(ws);
    PairIsMark(lines, x);
    forall i | i in Fronts(ws) ensures i in Headers(e) {
      PairsAreFronts(ws, i);
      PairIsMark(lines, i);
    }
    Outnumbered(Fronts(ws), Headers(e), |e|, x);
  }

  /** The rule that excludes every path. */
  predicate ExcludeAll(path: string) {
    true
  }

  /** The filter can read the file's paths, and one of them is the path of a file. */
  ghost predicate IsReadable(w: Written) {
    TailsOk(w) && NamesPath([ShownOld(w), ShownNew(w)])
  }

  lemma ExcludedByAll(candidates: seq<string>)
    ensures Verdict(candidates, ExcludeAll) == if NamesPath(candidates) then Some(true) else None
  {
    hide NormalizePath;
    if NamesPath(candidates) {
      var i, strip :| 0 <= i < |candidates| && NormalizePath(candidates[i], strip).Some?;
      assert IsHit(candidates[i], strip, ExcludeAll);
    }
  }

  lemma JudgedByAll(w: Written)
    requires w.preface.NoPreface? && !IsPure(w)
    ensures Judged(w, ExcludeAll) == if IsReadable(w) then Some(true) else None
  {
    hide Verdict, NamesPath, TailsOk;
    ExcludedByAll([ShownOld(w), ShownNew(w)]);
  }

  lemma JudgedIfReadable(w: Written, isExcluded: string -> bool)
    requires w.preface.NoPreface? && !IsPure(w)
    ensures Judged(w, isExcluded).Some? <==> IsReadable(w)
  {
    hide NamesPath, NamesExcluded, TailsOk;
  }

  lemma UnifiedByAll(lines: seq<string>, header: nat)
    ensures UnifiedVerdict(lines, header, ExcludeAll) in {None, Some(true)}
  {
    hide Verdict, PairAt;
    if header + 1 < |lines| && PairAt(lines, header).Some? {
      var pair := PairAt(lines, header).value;
      ExcludedByAll([pair.before, pair.after]);
    }
  }

  lemma {:induction false} AllRedacted(lines: seq<string>, starts: seq<nat>, verdicts: seq<Option<bool>>,
      sentinel: string, k: nat)
    requires k <= |starts| == |verdicts| && Increasing(starts, |lines|)
    requires forall i :: 0 <= i < |verdicts| ==> verdicts[i] == Some(true)
    ensures |Redact("", lines, starts, verdicts, sentinel, k)| == k * |sentinel|
  {
    hide Flatten, Section;
    if k > 0 {
      AllRedacted(lines, starts, verdicts, sentinel, k - 1);
      OneMore(k, |sentinel|);
    }
  }

  lemma OneMore(k: nat, s: nat)
    requires k > 0
    ensures k * s == (k - 1) * s + s
  {
  }

  lemma {:induction false} AllUnwanted(ws: seq<Written>, sentinel: string, k: nat)
    requires Headerless(ws) && k <= |ws| && forall i :: 0 <= i < |ws| ==> IsReadable(ws[i])
    ensures |Wanted(ws, ExcludeAll, sentinel, k)| == k * |sentinel|
  {
    hide WellFormed, Judged, IsReadable, RenderFile;
    if k > 0 {
      AllUnwanted(ws, sentinel, k - 1);
      FileIsBlock(ws[k - 1]);
      JudgedByAll(ws[k - 1]);
      OneMore(k, |sentinel|);
    }
  }

  lemma TimesGrows(m: nat, n: nat, s: nat)
    requires m > n && s > 0
    ensures m * s > n * s
  {
  }

  /** With everything excluded there are more sentinels than files, if filtering does not fail. */
  lemma {:induction false} HiddenHeadersShow(ws: seq<Written>)
    requires Headerless(ws) && ws != [] && AllText(RenderFiles(ws)) && FilesHide(ws)
    requires forall i :: 0 <= i < |ws| ==> IsReadable(ws[i])
    ensures !FilteredAsWanted(ws, ExcludeAll)
  {
    hide WellFormed, RenderFiles, JoinLines, MarkedBelow, UnifiedVerdict, WithEnds, AllText, Flatten, Redact, Wanted;
    hide FilesHide;
    hide Filtering, Judged, IsReadable, Newline;
    var diff, e := JoinLines(RenderFiles(ws)), WithEnds(RenderFiles(ws));
    var sentinel, verdicts := SentinelLine(diff), UnifiedVerdicts(e, ExcludeAll);
    FilteringSections(ws, ExcludeAll);
    MoreSections(ws);
    AllUnwanted(ws, sentinel, |ws|);
    TimesGrows(|Headers(e)|, |ws|, |sentinel|);
    forall k | 0 <= k < |ws| ensures Judged(ws[k], ExcludeAll) == Some(true) {
      FileIsBlock(ws[k]);
      JudgedByAll(ws[k]);
    }
    forall k | 0 <= k < |verdicts| ensures verdicts[k] in {None, Some(true)} { UnifiedByAll(e, Headers(e)[k]); }
    if forall k :: 0 <= k < |verdicts| ==> verdicts[k] == Some(true) {
      AllRedacted(e, Starts(e), verdicts, sentinel, |Starts(e)|);
    }
  }

  /**
   Whatever is excluded, filtering a patch without git headers replaces exactly the excluded files, if and
   only if no hunk holds a removed line that starts with `-- ` directly followed by an added line that
   starts with `++ `; or if some file cannot be judged, in which case it always fails.
   */
  lemma {:induction false} FilteredExactlyIff(ws: seq<Written>)
    requires Headerless(ws) && ws != [] && AllText(RenderFiles(ws))
    ensures (forall isExcluded: string -> bool :: FilteredAsWanted(ws, isExcluded))
            <==> !FilesHide(ws) || exists i :: 0 <= i < |ws| && !IsReadable(ws[i])
  {
    hide WellFormed, RenderFiles, FilteredAsWanted, FilesHide, IsReadable, AllText, Judged;
    if !FilesHide(ws) {
      forall isExcluded: string -> bool ensures FilteredAsWanted(ws, isExcluded) { FilteredExactly(ws, isExcluded); }
    } else if i :| 0 <= i < |ws| && !IsReadable(ws[i]) {
      forall isExcluded: string -> bool ensures FilteredAsWanted(ws, isExcluded) {
        FileIsBlock(ws[i]);
        JudgedIfReadable(ws[i], isExcluded);
        UnreadableFails(ws, i, isExcluded);
      }
    } else {
      HiddenHeadersShow(ws);
    }
  }

  // ----- an example

  const HIDING := ["--- s", "+++ s", "@@ -1,2 +1,2 @@", "--- a", "+++ b", " x"]

  predicate IsS(path: string) {
    path == "s"
  }

  /** With `s` excluded, what stands behind a hidden header in a hunk of `s` is kept. */
  lemma {:induction false} HiddenHeaderSplits()
    ensures Hides([Remove("-- a"), Add("++ b"), Context("x")])
            && RenderBody([Remove("-- a"), Add("++ b"), Context("x")]) == HIDING[3..]
    ensures Filtering(JoinLines(HIDING), IsS)
         == Success(Filtered(SentinelLine(JoinLines(HIDING)) + JoinLines(HIDING[3..]), true, true))
  {
    hide Filtering, JoinLines, UnifiedVerdict, Newline;
    HidingBody();
    HidingPairs();
    var e, sentinel := WithEnds(HIDING), SentinelLine(JoinLines(HIDING));
    FilteringLines(HIDING, IsS);
    HidingVerdicts();
    var verdicts := UnifiedVerdicts(e, IsS);
    assert verdicts == [Some(true), Some(false)];
    EndsOfCut(HIDING, 3, 6);
    FlattenEnds(HIDING[3..]);
    assert e[3..6] == WithEnds(HIDING[3..]);
    assert Redact("", e, [0, 3], verdicts, sentinel, 1) == sentinel;
    assert Redact("", e, [0, 3], verdicts, sentinel, 2) == sentinel + Flatten(e[3..6]);
  }

  lemma {:induction false} HidingBody()
    ensures Hides([Remove("-- a"), Add("++ b"), Context("x")])
            && RenderBody([Remove("-- a"), Add("++ b"), Context("x")]) == HIDING[3..]
  {
    var lines := [Remove("-- a"), Add("++ b"), Context("x")];
    assert HidesAt(lines, 0);
    BodyAt(lines);
    assert "-" + "-- a" == "--- a" && "+" + "++ b" == "+++ b" && " " + "x" == " x";
  }

  lemma {:induction false} HidingPairs()
    ensures AllDiffChars(HIDING) && AllText(HIDING) && IsPair(HIDING, 0) && Headers(WithEnds(HIDING)) == [0, 3]
  {
    hide MarkedBelow, Marks, WithEnds;
    var e := WithEnds(HIDING);
    MarkedBelowFacts(e, UnifiedHeader, |e|);
    assert HIDING[2][0] == '@' && HIDING[5][0] == ' ';
    forall i: nat ensures i in Headers(e) <==> i in [0, 3] {
      if i < 6 { PairIsMark(HIDING, i); }
    }
    SameNumbers(Headers(e), [0, 3], |e|);
  }

  lemma {:induction false} HidingVerdicts()
    ensures UnifiedVerdict(WithEnds(HIDING), 0, IsS) == Some(true)
            && UnifiedVerdict(WithEnds(HIDING), 3, IsS) == Some(false)
  {
    hide WithEnds, HeaderPath, NormalizePath;
    var e := WithEnds(HIDING);
    WordFiltered("--- ", "s");
    WordFiltered("+++ ", "s");
    WordFiltered("--- ", "a");
    WordFiltered("+++ ", "b");
    assert "--- " + "s" == HIDING[0] && "+++ " + "s" == HIDING[1] && "--- " + "a" == HIDING[3]
           && "+++ " + "b" == HIDING[4];
    assert IsHit("s", false, IsS);
    assert ["s", "s"][0] == "s" && ["a", "b"][0] == "a" && ["a", "b"][1] == "b";
    assert NamesExcluded(["s", "s"], IsS) && NamesPath(["s", "s"]);
    assert !NamesExcluded(["a", "b"], IsS);
    assert NormalizePath(["a", "b"][0], false).Some?;
  }

  lemma {:induction false} WordFiltered(prefix: string, c: string)
    requires prefix in {"--- ", "+++ "} && c in {"s", "a", "b"}
    ensures HeaderPath(prefix + c + "\n", prefix) == Some(c)
    ensures NormalizePath(c, false) == Some(c) && NormalizePath(c, true) == Some(c)
  {
    hide HeaderPath, Trim;
    PathLineFiltered(prefix, c, Bare);
    assert |c| == 1;
    Untrimmed(c);
  }
}
