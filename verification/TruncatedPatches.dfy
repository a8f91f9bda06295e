/** Where middle truncation may cut a rendered patch: between its files, or between the hunks of a single file. */
module TruncatedPatches {
  import opened Text
  import opened DiffMarks
  import opened HunkParsing
  import opened PatchRendering
  import opened CandidatePaths
  import opened DiffTruncation
  import opened FilteredPatches
  import opened FilteredGitPatches

  // ----- files

  lemma {:induction false} JoinedHolds(lines: seq<string>, pattern: string)
    requires lines != [] && pattern <= lines[0]
    ensures Contains(JoinLines(lines), pattern)
  {
    var text := JoinLines(lines);
    assert text[0..] == text && pattern <= text;
  }

  /** A file line behind the first that starts with `diff --git` would be one of its silent lines. */
  lemma {:induction false} GitHeadersAreFronts(ws: seq<Written>, i: nat)
    requires AllGitFiles(ws) && AllWellFormed(ws) && i < |RenderFiles(ws)|
    ensures "diff --git " <= RenderFiles(ws)[i] <==> i in Fronts(ws)
  {
    hide IsGitFile, WellFormed, RenderFile, Fronts, IsGitLine;
    var first, rest := RenderFile(ws[0]), RenderFiles(ws[1..]);
    assert IsGitFile(ws[0]);
    FileNotEmpty(ws[0]);
    FrontsCons(ws, i);
    if i < |first| {
      FileSections(ws[0], i);
      FirstLine(ws[0]);
      GitLineKinds(first[i]);
      assert RenderFiles(ws)[i] == first[i];
    } else {
      assert RenderFiles(ws)[i] == rest[i - |first|];
      GitHeadersAreFronts(ws[1..], i - |first|);
    }
  }

  lemma GitLineKinds(line: string)
    ensures "diff --git " <= line ==> IsGitLine(line)
  {
  }

  lemma {:induction false} FirstLine(w: Written)
    requires IsGitFile(w)
    ensures RenderFile(w) != [] && "diff --git " <= RenderFile(w)[0]
  {
    hide WellFormed, RenderFile, HeaderText, BlockOf, AllSilent;
    FileParts(w);
    HeadLetter(w.preface.header);
  }

  /** A git patch is cut where its files start. */
  lemma {:induction false} GitFileStarts(ws: seq<Written>)
    requires AllGitFiles(ws) && AllWellFormed(ws) && ws != [] && AllText(RenderFiles(ws))
    ensures FileStarts(JoinLines(RenderFiles(ws))) == Fronts(ws)
  {
    hide IsGitFile, WellFormed, RenderFiles, Marks, MarkedBelow, Fronts, WithEnds, SplitInclusive, JoinLines, Contains;
    hide AllText;
    var lines := RenderFiles(ws);
    var e := WithEnds(lines);
    SplitJoined(lines);
    FrontsIncrease(ws);
    FirstOfAll(ws);
    JoinedHolds(lines, "diff --git ");
    MarkedBelowFacts(e, GitHeader, |e|);
    forall i: nat ensures i in MarkedBelow(e, GitHeader, |e|) <==> i in Fronts(ws) {
      if i < |lines| {
        GitHeaderMark(lines, i);
        GitHeadersAreFronts(ws, i);
      }
    }
    SameNumbers(MarkedBelow(e, GitHeader, |e|), Fronts(ws), |e|);
  }

  lemma {:induction false} FirstOfAll(ws: seq<Written>)
    requires AllGitFiles(ws) && AllWellFormed(ws) && ws != []
    ensures RenderFiles(ws) != [] && "diff --git " <= RenderFiles(ws)[0]
  {
    hide IsGitFile, WellFormed, RenderFile;
    assert IsGitFile(ws[0]);
    FirstLine(ws[0]);
  }

  lemma GitHeaderMark(lines: seq<string>, i: nat)
    requires i < |lines|
    ensures Marks(WithEnds(lines), i, GitHeader) <==> "diff --git " <= lines[i]
  {
    hide WithEnds;
    PrefixBeforeEnd("diff --git ", lines[i]);
  }

  /**
   So is a patch without git headers, if no hunk hides a header and `diff --git` is not part of any
   line of it.
   */
  lemma {:induction false} PlainFileStarts(ws: seq<Written>)
    requires Headerless(ws) && AllText(RenderFiles(ws)) && !FilesHide(ws)
    requires !Contains(JoinLines(RenderFiles(ws)), "diff --git ")
    ensures FileStarts(JoinLines(RenderFiles(ws))) == Fronts(ws)
  {
    hide WellFormed, RenderFiles, Marks, MarkedBelow, Fronts, WithEnds, SplitInclusive, JoinLines, Contains;
    hide SectionStart;
    hide FilesHide, AllText, AllDiffChars;
    var lines := RenderFiles(ws);
    var e := WithEnds(lines);
    SplitJoined(lines);
    SectionsAreFiles(ws);
    FilesChars(ws);
    MarkedBelowFacts(e, UnifiedHeader, |e|);
    forall i | 0 <= i < |Headers(e)| ensures SectionStart(e, Headers(e)[i]) == Headers(e)[i] {
      assert Headers(e)[i] in Headers(e);
      PlainStart(lines, Headers(e)[i]);
    }
    assert UnifiedStarts(e) == Fronts(ws);
  }

  lemma PlainStart(lines: seq<string>, i: nat)
    requires AllDiffChars(lines) && i < |lines|
    ensures SectionStart(WithEnds(lines), i) == i
  {
    hide WithEnds, IsDelimiter;
    var e := WithEnds(lines);
    if i >= 1 { assert DiffChar(lines[i - 1]) && e[i - 1][0] == lines[i - 1][0]; }
    if i >= 2 { assert DiffChar(lines[i - 2]) && e[i - 2][0] == lines[i - 2][0]; }
  }

  // ----- hunks

  /** The number of the first line of each hunk, the first hunk starting at line `at`. */
  function HunkFronts(hunks: seq<Hunk>, at: nat): seq<nat> {
    if hunks == [] then [] else [at] + HunkFronts(hunks[1..], at + 1 + |hunks[0].lines|)
  }

  /** A line of a hunk starts it exactly if it is its header. */
  lemma {:induction false} HunkLineStarts(h: Hunk, style: Style, i: nat)
    requires Fits(h, style) && i <= |h.lines| && |RenderHunk(h, style)| == 1 + |h.lines|
    ensures "@@" <= RenderHunk(h, style)[i] <==> i == 0
  {
    hide Fits, RenderHeader, RenderLine, RenderHunk;
    var r := RenderHunk(h, style);
    HunkLineAt(h, style, [], i);
    assert r + [] == r;
    if i == 0 { HeaderLineKind(h, style); } else { LineKinds(h.lines[i - 1]); }
  }

  lemma {:induction false} HunkFrontsRise(hunks: seq<Hunk>, styles: seq<Style>, at: nat)
    requires HunksFit(hunks, styles)
    ensures var fronts := HunkFronts(hunks, at);
            Increasing(fronts, at + |RenderHunks(hunks, styles)|)
            && forall k :: 0 <= k < |fronts| ==> at <= fronts[k]
  {
    hide HunksFit, Increasing, RenderHunk;
    if hunks == [] {
      NothingRises(at);
    } else {
      var next := at + 1 + |hunks[0].lines|;
      FitsRest(hunks, styles);
      HunkLength(hunks[0], styles[0]);
      HunkFrontsRise(hunks[1..], styles[1..], next);
      RisesFrom(at, HunkFronts(hunks[1..], next), at + |RenderHunks(hunks, styles)|);
    }
  }

  lemma NothingRises(n: nat)
    ensures Increasing([], n)
  {
  }

  lemma RisesFrom(at: nat, later: seq<nat>, n: nat)
    requires at < n && Increasing(later, n) && forall k :: 0 <= k < |later| ==> at < later[k]
    ensures Increasing([at] + later, n) && forall k :: 0 <= k < |[at] + later| ==> at <= ([at] + later)[k]
  {
  }

  lemma FitsRest(hunks: seq<Hunk>, styles: seq<Style>)
    requires HunksFit(hunks, styles) && hunks != []
    ensures styles != [] && Fits(hunks[0], styles[0]) && HunksFit(hunks[1..], styles[1..])
  {
    hide Fits, Consistent;
  }

  lemma {:induction false} FrontsOfRest(hunks: seq<Hunk>, at: nat, m: nat)
    requires hunks != []
    ensures m in HunkFronts(hunks, at) <==> m == at || m in HunkFronts(hunks[1..], at + 1 + |hunks[0].lines|)
  {
  }

  lemma {:induction false} LinesOfRest(hunks: seq<Hunk>, styles: seq<Style>, i: nat)
    requires HunksFit(hunks, styles) && i < |RenderHunks(hunks, styles)|
    ensures hunks != [] && HunksFit(hunks[1..], styles[1..])
    ensures var first, rest := RenderHunk(hunks[0], styles[0]), RenderHunks(hunks[1..], styles[1..]);
            && |first| == 1 + |hunks[0].lines| && |RenderHunks(hunks, styles)| == |first| + |rest|
            && RenderHunks(hunks, styles)[i] == if i < |first| then first[i] else rest[i - |first|]
  {
    hide HunksFit, RenderHunk;
    FitsRest(hunks, styles);
    HunkLength(hunks[0], styles[0]);
  }

  lemma {:induction false} HunkFrontsAre(hunks: seq<Hunk>, styles: seq<Style>, at: nat, i: nat)
    requires HunksFit(hunks, styles) && i < |RenderHunks(hunks, styles)|
    ensures "@@" <= RenderHunks(hunks, styles)[i] <==> at + i in HunkFronts(hunks, at)
  {
    hide HunksFit, RenderHunk, RenderHunks, HunkFronts, Increasing;
    LinesOfRest(hunks, styles, i);
    FitsRest(hunks, styles);
    FrontsOfRest(hunks, at, at + i);
    var next := at + 1 + |hunks[0].lines|;
    if at + i < next {
      HunkLineStarts(hunks[0], styles[0], i);
      HunkFrontsRise(hunks[1..], styles[1..], next);
    } else {
      HunkFrontsAre(hunks[1..], styles[1..], next, at + i - next);
    }
  }

  /** A single file is cut, if at all, where its hunks start. */
  lemma {:induction false} FileHunkStarts(front: seq<string>, hunks: seq<Hunk>, styles: seq<Style>)
    requires HunksFit(hunks, styles) && forall i :: 0 <= i < |front| ==> !("@@" <= front[i])
    ensures Hunks(WithEnds(front + RenderHunks(hunks, styles))) == HunkFronts(hunks, |front|)
  {
    hide HunksFit, RenderHunks, HunkFronts, Marks, MarkedBelow, WithEnds;
    var r := RenderHunks(hunks, styles);
    var lines, fronts := front + r, HunkFronts(hunks, |front|);
    var e := WithEnds(lines);
    HunkFrontsRise(hunks, styles, |front|);
    MarkedBelowFacts(e, HunkHeader, |e|);
    forall i: nat ensures i in Hunks(e) <==> i in fronts {
      if i < |lines| {
        HunkMark(lines, i);
        if i >= |front| {
          assert lines[i] == r[i - |front|];
          HunkFrontsAre(hunks, styles, |front|, i - |front|);
        }
      }
    }
    SameNumbers(Hunks(e), fronts, |e|);
  }

  lemma HunkMark(lines: seq<string>, i: nat)
    requires i < |lines|
    ensures Marks(WithEnds(lines), i, HunkHeader) <==> "@@" <= lines[i]
  {
    hide WithEnds;
    PrefixBeforeEnd("@@", lines[i]);
  }
}
