/** Filtering a rendered patch with git headers replaces exactly the files that are excluded. */
module FilteredGitPatches {
  import opened Wrappers
  import opened Text
  import opened Whitespace
  import opened GitQuoting
  import opened DiffMarks
  import opened DiffHeaders
  import opened PatchRendering
  import opened CandidatePaths
  import opened DiffFilter
  import opened FilteredPatches

  // ----- lines that name no path

  predicate IsGitLine(line: string) {
    "diff --git " <= line || "diff --cc " <= line || "diff --combined " <= line
  }

  /** A metadata line such as `index` or `new file mode`: it starts nothing and names nothing. */
  predicate IsSilent(line: string) {
    && IsIdle(line) && !IsGitLine(line)
    && !("copy from " <= line) && !("copy to " <= line) && !("Binary files " <= line)
  }

  predicate AllSilent(lines: seq<string>) {
    forall i :: 0 <= i < |lines| ==> IsSilent(lines[i])
  }

  /** A file as git writes it, with nothing but silent lines and renames behind its header. */
  ghost predicate IsGitFile(w: Written) {
    WellFormed(w) && w.preface.GitPreface? && AllSilent(w.preface.metadata) && AllSilent(w.preface.more)
  }

  ghost predicate AllGitFiles(ws: seq<Written>) {
    forall i :: 0 <= i < |ws| ==> IsGitFile(ws[i])
  }

  predicate IsQuiet(line: string) {
    RelocationPrefix(line).None? && !IsBinaryLine(line)
  }

  lemma {:induction false} TrimmedPrefix(prefix: string, line: string)
    requires '\n' !in prefix && !(prefix <= line)
    ensures !(prefix <= TrimLineEnd(line + "\n"))
  {
    hide TrimLineEnd;
    var t := TrimLineEnd(line + "\n");
    PrefixBeforeEnd(prefix, line);
    assert t <= line + "\n";
  }

  lemma SilentIsQuiet(line: string)
    requires IsSilent(line)
    ensures IsQuiet(line + "\n")
  {
    hide TrimLineEnd;
    PrefixBeforeEnd("rename from ", line);
    PrefixBeforeEnd("rename to ", line);
    PrefixBeforeEnd("copy from ", line);
    PrefixBeforeEnd("copy to ", line);
    TrimmedPrefix("Binary files ", line);
  }

  lemma LetterIsQuiet(line: string)
    requires line != [] && line[0] !in {'r', 'c', 'B'}
    ensures IsQuiet(line + "\n")
  {
    hide TrimLineEnd;
    assert (line + "\n")[0] == line[0];
    TrimmedPrefix("Binary files ", line);
  }

  ghost predicate QuietFrom(section: seq<string>, m: nat, n: nat) {
    n <= |section| && forall i :: m <= i < n ==> IsQuiet(section[i])
  }

  /** Quiet lines add nothing to what has been found in front of them. */
  lemma {:induction false} QuietAdds(section: seq<string>, m: nat, n: nat)
    requires m <= n && QuietFrom(section, m, n)
    ensures Metadata(section, n) == Metadata(section, m) && FirstBinary(section, n) == FirstBinary(section, m)
    ensures forall prefix :: prefix in RELOCATIONS ==>
              FirstTrailing(section, prefix, n) == FirstTrailing(section, prefix, m)
  {
    hide IsQuiet, LinePaths, BinaryLine, TrailingPath;
    if m < n {
      QuietAdds(section, m, n - 1);
      QuietLine(section[n - 1]);
      MetadataStep(section, n - 1, []);
    }
  }

  lemma MetadataStep(section: seq<string>, n: nat, paths: seq<string>)
    requires n < |section| && LinePaths(section[n]) == Some(paths)
    ensures Metadata(section, n).Some? ==> Metadata(section, n + 1) == Some(Metadata(section, n).value + paths)
    ensures paths == [] ==> Metadata(section, n + 1) == Metadata(section, n)
  {
    hide LinePaths;
    if Metadata(section, n).Some? { assert Metadata(section, n).value + [] == Metadata(section, n).value; }
  }

  lemma QuietLine(line: string)
    requires IsQuiet(line)
    ensures LinePaths(line) == Some([]) && BinaryLine(line) == None
    ensures forall prefix :: prefix in RELOCATIONS ==> TrailingPath(line, prefix).None?
  {
    hide IsBinaryLine;
  }

  // ----- the lines of a file

  /** Where the `rename` lines are, or would be. */
  function RenamesAt(w: Written): nat
    requires w.preface.GitPreface?
  {
    1 + |w.preface.metadata|
  }

  function RenamesEnd(w: Written): nat
    requires w.preface.GitPreface?
  {
    RenamesAt(w) + |RenameLines(w.preface.rename, w.file)|
  }

  ghost function BlockOf(w: Written): seq<string>
    requires WellFormed(w)
  {
    if IsPure(w) then [] else RenderBlock(w)
  }

  lemma {:induction false} FileParts(w: Written)
    requires WellFormed(w) && w.preface.GitPreface?
    ensures var p := w.preface;
            RenderFile(w) == (["diff --git " + HeaderText(p.header)] + p.metadata)
                + (RenameLines(p.rename, w.file) + (p.more + BlockOf(w)))
    ensures PrefaceLines(w.preface, w.file) != []
            && RenderFile(w) == PrefaceLines(w.preface, w.file) + BlockOf(w)
  {
    hide RenderBlock, RenameLines, HeaderText, WellFormed;
  }

  lemma BlockOfChars(w: Written)
    requires WellFormed(w)
    ensures AllDiffChars(BlockOf(w))
  {
    hide RenderBlock, WellFormed;
    if !IsPure(w) { BlockChars(w); }
  }

  lemma {:induction false} HeadLetter(h: Header)
    ensures var line := "diff --git " + HeaderText(h); "diff --git " <= line && line[0] == 'd'
  {
    hide HeaderText;
  }

  /** Only the `rename` lines of a file, if it has any, name paths outside the header and the pair. */
  lemma {:induction false} FileIsQuiet(w: Written)
    requires IsGitFile(w)
    ensures var e := WithEnds(RenderFile(w));
            && 0 < RenamesAt(w) <= RenamesEnd(w) <= |e|
            && QuietFrom(e, 0, RenamesAt(w)) && QuietFrom(e, RenamesEnd(w), |e|)
  {
    hide WellFormed, RenderFile, WithEnds, HeaderText, RenameLines, IsSilent, IsQuiet, BlockOf, DiffChar;
    var p, r := w.preface, RenderFile(w);
    var e := WithEnds(r);
    FileParts(w);
    BlockOfChars(w);
    HeadLetter(p.header);
    forall i | 0 <= i < RenamesAt(w) ensures IsQuiet(e[i]) {
      if i == 0 { LetterIsQuiet(r[0]); } else { SilentIsQuiet(p.metadata[i - 1]); }
    }
    forall i | RenamesEnd(w) <= i < |e| ensures IsQuiet(e[i]) {
      var k := i - RenamesEnd(w);
      if k < |p.more| { SilentIsQuiet(p.more[k]); } else { BlockLineQuiet(BlockOf(w), k - |p.more|); }
    }
  }

  lemma BlockLineQuiet(block: seq<string>, k: nat)
    requires AllDiffChars(block) && k < |block|
    ensures IsQuiet(block[k] + "\n")
  {
    hide IsQuiet;
    assert DiffChar(block[k]);
    LetterIsQuiet(block[k]);
  }

  lemma {:induction false} RenameLinesAre(w: Written)
    requires IsGitFile(w) && w.preface.rename.Some?
    ensures var e, at, style := WithEnds(RenderFile(w)), RenamesAt(w), w.preface.rename.value;
            && RenamesEnd(w) == at + 2 <= |e|
            && e[at] == "rename from " + (TokenText(w.file.oldPath, style.quoteFrom) + "\n")
            && e[at + 1] == "rename to " + (TokenText(w.file.newPath, style.quoteTo) + "\n")
  {
    hide WellFormed, RenderFile, WithEnds, HeaderText, TokenText, BlockOf, AllSilent;
    FileParts(w);
    var r, at, lines := RenderFile(w), RenamesAt(w), RenameLines(w.preface.rename, w.file);
    assert |lines| == 2;
    assert r[at] == lines[0] && r[at + 1] == lines[1];
  }

  // ----- what a file names

  lemma {:induction false} RenameLineReads(prefix: string, path: string, quoted: bool)
    requires prefix in RELOCATIONS && RenameOk(path, quoted)
    ensures var line := prefix + (TokenText(path, quoted) + "\n");
            && LinePaths(line) == Some([path]) && TrailingPath(line, prefix) == Some(path)
            && RelocationPrefix(line) == Some(prefix) && BinaryLine(line) == None
            && forall other :: other in RELOCATIONS && other != prefix ==> TrailingPath(line, other).None?
  {
    hide RelocationPrefix, TrailingPath, Quoted, IsWhitespace, IsBinaryLine;
    if quoted {
      QuotedRelocation(prefix, path, "\n");
    } else {
      PlainUnquoted(path);
      NotLineBreak(path[|path| - 1]);
      UnquotedRelocation(prefix, path, "\n");
    }
    Relocating(prefix, TokenText(path, quoted) + "\n");
    RelocationOnly(prefix, TokenText(path, quoted) + "\n");
  }

  lemma RelocationOnly(prefix: string, rest: string)
    requires prefix in RELOCATIONS
    ensures var line := prefix + rest;
            !IsBinaryLine(line)
            && forall other :: other in RELOCATIONS && other != prefix ==> TrailingPath(line, other).None?
  {
    hide TrimLineEnd, WholePath;
    var line := prefix + rest;
    assert line[0] == prefix[0] && line[7] == prefix[7] && line[5] == prefix[5];
    assert TrimLineEnd(line) <= line;
  }

  /** What the metadata of a file gives. */
  lemma {:induction false} FileMetadata(w: Written)
    requires IsGitFile(w)
    ensures var e, f := WithEnds(RenderFile(w)), w.file;
            && Metadata(e, |e|) == Some(if w.preface.rename.Some? then [f.oldPath, f.newPath] else [])
            && (IsRelocated(e) <==> w.preface.rename.Some?)
  {
    hide WellFormed, RenderFile, WithEnds, LinePaths, RelocationPrefix, IsBinaryLine, AllSilent, TokenText, RenameLines;
    hide TrailingPath, FirstTrailing, FirstBinary, Metadata, RenameOk, BinaryLine;
    NoMetadata(WithEnds(RenderFile(w)));
    var e, at := WithEnds(RenderFile(w)), RenamesAt(w);
    FileIsQuiet(w);
    QuietAdds(e, 0, at);
    QuietAdds(e, RenamesEnd(w), |e|);
    if w.preface.rename.Some? {
      RenameLinesAre(w);
      RenamesOk(w);
      RenameLineReads("rename from ", w.file.oldPath, w.preface.rename.value.quoteFrom);
      RenameLineReads("rename to ", w.file.newPath, w.preface.rename.value.quoteTo);
      MetadataStep(e, at, [w.file.oldPath]);
      MetadataStep(e, at + 1, [w.file.newPath]);
      assert [] + [w.file.oldPath] + [w.file.newPath] == [w.file.oldPath, w.file.newPath];
      assert RelocationPrefix(e[at]).Some?;
    } else {
      NoRenames(w);
      assert forall i :: 0 <= i < |e| ==> IsQuiet(e[i]);
    }
  }

  lemma {:induction false} NoMetadata(section: seq<string>)
    ensures Metadata(section, 0) == Some([])
  {
  }

  lemma NoRenames(w: Written)
    requires w.preface.GitPreface? && w.preface.rename.None?
    ensures RenamesEnd(w) == RenamesAt(w)
  {
  }

  lemma RenamesOk(w: Written)
    requires WellFormed(w) && w.preface.GitPreface? && w.preface.rename.Some?
    ensures RenameOk(w.file.oldPath, w.preface.rename.value.quoteFrom)
            && RenameOk(w.file.newPath, w.preface.rename.value.quoteTo)
  {
    hide RenameOk, IsClear, IsVague, HunksFit, PathOk, PrefixesMatch, Agrees;
  }

  /** What is found in the section of a file whose header cannot be read. */
  lemma {:induction false} FileTrailing(w: Written)
    requires IsGitFile(w)
    ensures var e, f := WithEnds(RenderFile(w)), w.file;
            var renamed := w.preface.rename.Some?;
            && FirstTrailing(e, "rename from ", |e|) == (if renamed then Some(f.oldPath) else None)
            && FirstTrailing(e, "rename to ", |e|) == (if renamed then Some(f.newPath) else None)
            && FirstTrailing(e, "copy from ", |e|) == None && FirstTrailing(e, "copy to ", |e|) == None
            && FirstBinary(e, |e|) == None
  {
    hide WellFormed, RenderFile, WithEnds, TrailingPath, RelocationPrefix, BinaryLine, AllSilent, TokenText;
    hide RenameLines, Metadata, LinePaths, FirstTrailing, FirstBinary, RELOCATIONS, RenameOk, QuietFrom;
    var e, at := WithEnds(RenderFile(w)), RenamesAt(w);
    FileIsQuiet(w);
    QuietAdds(e, 0, at);
    QuietAdds(e, RenamesEnd(w), |e|);
    Relocations();
    NothingFound(e);
    if w.preface.rename.Some? {
      RenameLinesAre(w);
      RenamesOk(w);
      RenameLineReads("rename from ", w.file.oldPath, w.preface.rename.value.quoteFrom);
      RenameLineReads("rename to ", w.file.newPath, w.preface.rename.value.quoteTo);
      TwoLines(e, at);
      assert TrailingPath(e[at], "copy from ").None? && TrailingPath(e[at + 1], "copy from ").None?;
      assert TrailingPath(e[at], "copy to ").None? && TrailingPath(e[at + 1], "copy to ").None?;
      assert TrailingPath(e[at], "rename to ").None? && TrailingPath(e[at + 1], "rename from ").None?;
    } else {
      NoRenames(w);
    }
  }

  lemma {:induction false} NothingFound(section: seq<string>)
    ensures FirstBinary(section, 0) == None
    ensures forall prefix :: prefix in RELOCATIONS ==> FirstTrailing(section, prefix, 0) == None
  {
  }

  lemma Relocations()
    ensures "rename from " in RELOCATIONS && "rename to " in RELOCATIONS
            && "copy from " in RELOCATIONS && "copy to " in RELOCATIONS
    ensures "rename from " != "rename to " && "rename from " != "copy from " && "rename from " != "copy to "
    ensures "rename to " != "copy from " && "rename to " != "copy to "
  {
    assert RELOCATIONS[0] == "rename from " && RELOCATIONS[1] == "rename to ";
    assert RELOCATIONS[2] == "copy from " && RELOCATIONS[3] == "copy to ";
    assert "rename from "[7] == 'f' && "rename to "[7] == 't';
  }

  /** Two lines give what the one or the other gives. */
  lemma TwoLines(section: seq<string>, at: nat)
    requires at + 2 <= |section| && FirstBinary(section, at) == None
    requires BinaryLine(section[at]) == None && BinaryLine(section[at + 1]) == None
    requires forall prefix :: prefix in RELOCATIONS ==> FirstTrailing(section, prefix, at) == None
    ensures FirstBinary(section, at + 2) == None
    ensures forall prefix :: prefix in RELOCATIONS ==>
              FirstTrailing(section, prefix, at + 2)
              == if TrailingPath(section[at], prefix).Some? then TrailingPath(section[at], prefix)
                 else TrailingPath(section[at + 1], prefix)
  {
    hide TrailingPath, BinaryLine;
    forall prefix | prefix in RELOCATIONS
      ensures FirstTrailing(section, prefix, at + 2)
           == if TrailingPath(section[at], prefix).Some? then TrailingPath(section[at], prefix)
              else TrailingPath(section[at + 1], prefix)
    {
      assert FirstTrailing(section, prefix, at + 1) == TrailingPath(section[at], prefix);
    }
    assert FirstBinary(section, at + 1) == None;
  }

  // ----- the pair of a file

  /** In a file that hides no header there is one pair, unless it is a pure rename. */
  lemma {:induction false} GitFilePairs(w: Written, i: nat)
    requires IsGitFile(w) && i < |RenderFile(w)|
    ensures var n := |PrefaceLines(w.preface, w.file)|;
            && (i == n ==> IsPair(RenderFile(w), i))
            && (i < n || IsPure(w) || (i > n && !HunksHide(w.file.hunks)) ==> !IsPair(RenderFile(w), i))
  {
    hide WellFormed, RenderFile, PrefaceLines, RenderBlock, IsPair, HunksHide, AllSilent;
    var preface, block := PrefaceLines(w.preface, w.file), BlockOf(w);
    FileParts(w);
    if i < |preface| {
      PrefaceLine(w, i);
      NoDashNoPair(RenderFile(w), i);
    } else {
      PairBehind(preface, block, i);
      assert block + [] == block && NextFile([]);
      if !IsPure(w) { BlockPairs(w, [], i - |preface|); }
    }
  }

  lemma NoDashNoPair(lines: seq<string>, i: nat)
    requires i < |lines| && !("--- " <= lines[i])
    ensures !IsPair(lines, i)
  {
  }

  /** Behind the header no line in front of the file block starts a section or a pair. */
  lemma {:induction false} PrefaceLine(w: Written, i: nat)
    requires IsGitFile(w) && i < |PrefaceLines(w.preface, w.file)| <= |RenderFile(w)|
    ensures !("--- " <= RenderFile(w)[i]) && (i > 0 ==> !IsGitLine(RenderFile(w)[i]))
  {
    hide WellFormed, RenderFile, BlockOf, HeaderText, TokenText, IsGitLine;
    FileParts(w);
    var p, r := w.preface, RenderFile(w);
    HeadLetter(p.header);
    var renames := RenameLines(p.rename, w.file);
    assert |PrefaceLines(p, w.file)| == RenamesEnd(w) + |p.more|;
    if i == 0 {
    } else if i < RenamesAt(w) {
      assert IsSilent(p.metadata[i - 1]);
    } else if i < RenamesEnd(w) {
      assert r[i] == renames[i - RenamesAt(w)];
      RenameLetter(w, i - RenamesAt(w));
    } else {
      assert r[i] == p.more[i - RenamesEnd(w)];
      assert IsSilent(p.more[i - RenamesEnd(w)]);
    }
  }

  lemma RenameLetter(w: Written, k: nat)
    requires w.preface.GitPreface? && k < |RenameLines(w.preface.rename, w.file)|
    ensures var line := RenameLines(w.preface.rename, w.file)[k]; !("--- " <= line) && !IsGitLine(line)
  {
    hide TokenText;
    var line := RenameLines(w.preface.rename, w.file)[k];
    assert line[0] == 'r';
  }

  lemma {:induction false} HeadersOf(e: seq<string>, numbers: seq<nat>)
    requires Increasing(numbers, |e|) && forall i: nat :: i < |e| ==> (Marks(e, i, UnifiedHeader) <==> i in numbers)
    ensures Headers(e) == numbers
  {
    hide Marks, MarkedBelow;
    MarkedBelowFacts(e, UnifiedHeader, |e|);
    forall i: nat ensures i in Headers(e) <==> i in numbers {
      if i in numbers { InRange(numbers, |e|, i); }
    }
    SameNumbers(Headers(e), numbers, |e|);
  }

  lemma InRange(numbers: seq<nat>, n: nat, i: nat)
    requires Increasing(numbers, n) && i in numbers
    ensures i < n
  {
  }

  lemma {:induction false} OnePair(w: Written)
    requires IsGitFile(w) && !HunksHide(w.file.hunks)
    ensures var n := |PrefaceLines(w.preface, w.file)|;
            Headers(WithEnds(RenderFile(w))) == (if IsPure(w) then [] else [n])
  {
    hide IsGitFile, RenderFile, PrefaceLines, WithEnds, IsPair, HunksHide, Marks, MarkedBelow, Headers;
    GitFileIs(w);
    var r := RenderFile(w);
    var e, n := WithEnds(r), |PrefaceLines(w.preface, w.file)|;
    var numbers: seq<nat> := if IsPure(w) then [] else [n];
    BlockBehind(w);
    forall i: nat | i < |e| ensures Marks(e, i, UnifiedHeader) <==> i in numbers {
      GitFilePairs(w, i);
      PairIsMark(r, i);
    }
    HeadersOf(e, numbers);
  }

  lemma {:induction false} BlockBehind(w: Written)
    requires IsGitFile(w)
    ensures var r, n := RenderFile(w), |PrefaceLines(w.preface, w.file)|;
            && |r| == n + |BlockOf(w)| && (!IsPure(w) ==>
                 && n + 1 < |r| && r[n] == PathLine("--- ", ShownOld(w), w.oldStyle)
                 && r[n + 1] == PathLine("+++ ", ShownNew(w), w.newStyle)
                 && PathOk(ShownOld(w), w.oldStyle) && PathOk(ShownNew(w), w.newStyle))
  {
    hide WellFormed, RenderFile, PrefaceLines, RenderBlock, RenderHunks, PathLine, PathOk, ShownOld, ShownNew;
    hide AllSilent;
    FileParts(w);
    if !IsPure(w) {
      BlockLines(w);
      var r, n := RenderFile(w), |PrefaceLines(w.preface, w.file)|;
      assert r[n] == RenderBlock(w)[0] && r[n + 1] == RenderBlock(w)[1];
    }
  }

  lemma NoHunksNoPair(w: Written)
    requires IsPure(w)
    ensures !HunksHide(w.file.hunks)
  {
  }

  /** A file that hides a header has a second pair. */
  lemma {:induction false} TwoPairs(w: Written)
    requires IsGitFile(w) && HunksHide(w.file.hunks)
    ensures !IsPure(w) && |Headers(WithEnds(RenderFile(w)))| > 1
  {
    hide WellFormed, AllSilent, RenderFile, RenderBlock, PrefaceLines, WithEnds, IsPair, HunksHide, Marks, MarkedBelow;
    if IsPure(w) { NoHunksNoPair(w); }
    var r, preface, block := RenderFile(w), PrefaceLines(w.preface, w.file), RenderBlock(w);
    var e, n := WithEnds(r), |preface|;
    FileParts(w);
    BlockBehind(w);
    assert NextFile([]) && block + [] == block;
    var k := PairInBlock(w, []);
    PairBehind(preface, block, n + k);
    PairIsMark(r, n + k);
    GitFilePairs(w, n);
    PairIsMark(r, n);
    MarkedBelowFacts(e, UnifiedHeader, |e|);
    assert n in Headers(e) && n + k in Headers(e);
  }

  // ----- the candidates of a file

  lemma {:induction false} NoQuoteNotBroken(s: string)
    requires '"' !in s
    ensures !QuotesBroken(s)
  {
    if s != [] { NoQuoteNotBroken(s[1..]); }
  }

  lemma {:induction false} ClearGitHeader(h: Header)
    requires IsClear(h)
    ensures SectionPaths(("diff --git " + HeaderText(h)) + "\n") == Some([h.before, h.after])
  {
    hide TokenText, TokenOk, TrimLineEnd, Readable, GitPaths, HeaderText;
    var rest, line := HeaderText(h), ("diff --git " + HeaderText(h)) + "\n";
    assert line[..11] == "diff --git " && line[11..] == rest + "\n";
    HeaderTextIs(h);
    if TokenOk(h.before, h.quoteBefore) && TokenOk(h.after, h.quoteAfter) {
      TokenRest(h.before, h.quoteBefore, h.after, h.quoteAfter, "\n");
    } else {
      SamePathTwice(h.before, h.after);
      RestRoundTrip(h.before[2..], "\n");
    }
  }

  lemma {:induction false} VagueGitHeader(h: Header)
    requires IsVague(h)
    ensures var line := ("diff --git " + HeaderText(h)) + "\n";
            SectionPaths(line) == None && !QuotesBroken(TrimLineEnd(line))
  {
    hide HeaderText, HasThirdWord, Accepted, IsWhitespace, QuotesBroken, TrimLineEnd, GitPaths;
    var text := HeaderText(h);
    HeaderTextIs(h);
    VagueRest(text);
    assert text != [] && !IsWhitespace(text[|text| - 1]);
    HeadOf(text);
  }

  lemma {:induction false} HeadOf(text: string)
    requires '"' !in text && text != [] && !IsWhitespace(text[|text| - 1])
    ensures var line := ("diff --git " + text) + "\n";
            "diff --git " <= line && line[11..] == text + "\n" && !QuotesBroken(TrimLineEnd(line))
  {
    hide IsWhitespace, QuotesBroken, TrimLineEnd;
    var head := "diff --git " + text;
    assert (head + "\n")[..11] == "diff --git " && (head + "\n")[11..] == text + "\n";
    NotLineBreak(text[|text| - 1]);
    assert head[|head| - 1] == text[|text| - 1];
    TrimLineEndOf(head, "\n");
    assert forall c :: c in head ==> c in "diff --git " || c in text;
    NoQuoteNotBroken(head);
  }

  lemma {:induction false} VagueRest(text: string)
    requires text != [] && '"' !in text && !IsWhitespace(text[0]) && !IsWhitespace(text[|text| - 1])
    requires HasThirdWord(text) && forall pos: nat :: !Accepted(text, pos)
    ensures GitPaths(TrimLineEnd(text + "\n")) == None
  {
    hide HasThirdWord, Accepted, IsWhitespace, TokenPaths, OnlySplit, TrimLineEnd, Trim;
    NotLineBreak(text[|text| - 1]);
    TrimLineEndOf(text, "\n");
    Untrimmed(text);
    VagueTokens(text);
    NoSplit(text);
  }

  /** The filter reads a path line of a git file exactly if it accepts what follows the path. */
  lemma {:induction false} GitPathLineFiltered(prefix: string, shown: string, style: PathStyle)
    requires PathOk(shown, style) && IsTextLine(PathLine(prefix, shown, style))
    ensures GitHeaderPath(PathLine(prefix, shown, style) + "\n", prefix) == if TailOk(style) then Some(shown) else None
  {
    hide PathOk, IsTextLine, TrimLineEnd, IsQuoted, BeforeTab, Trim, IsHeaderMetadata, Quoted, QuotedPath;
    PathRest(prefix, shown, style);
    match style {
      case Bare =>
        BarePath(shown);
        assert "" + shown == shown;
        PathNotEmpty(shown);
      case Noted(note) =>
        NotedPathReads(shown, note);
        assert PathLine("", shown, style) == shown + ("\t" + note);
      case GitQuoted(behind) =>
        QuotedPathReads(shown, behind);
        assert PathLine("", shown, style) == Quoted(shown) + behind;
        QuotedEnds(shown);
    }
  }

  /** The pair of a file, read either way, gives its paths. */
  lemma {:induction false} FilePair(w: Written)
    requires IsGitFile(w) && !IsPure(w) && AllText(RenderFile(w))
    ensures var e, n := WithEnds(RenderFile(w)), |PrefaceLines(w.preface, w.file)|;
            var pair := if TailsOk(w) then Some(Paths(ShownOld(w), ShownNew(w))) else None;
            n + 1 < |e| && PairAt(e, n) == pair && GitPairAt(e, n) == pair
  {
    hide IsGitFile, RenderFile, PrefaceLines, WithEnds, HeaderPath, GitHeaderPath, PathLine, PathOk, IsTextLine, TailOk;
    hide ShownOld, ShownNew, BlockOf;
    GitFileIs(w);
    var r, n := RenderFile(w), |PrefaceLines(w.preface, w.file)|;
    BlockBehind(w);
    assert IsTextLine(r[n]) && IsTextLine(r[n + 1]);
    PathLineFiltered("--- ", ShownOld(w), w.oldStyle);
    PathLineFiltered("+++ ", ShownNew(w), w.newStyle);
    GitPathLineFiltered("--- ", ShownOld(w), w.oldStyle);
    GitPathLineFiltered("+++ ", ShownNew(w), w.newStyle);
  }

  lemma {:induction false} FileHeaderCandidates(w: Written)
    requires IsGitFile(w) && !HunksHide(w.file.hunks) && AllText(RenderFile(w)) && (IsPure(w) || TailsOk(w))
    ensures var e := WithEnds(RenderFile(w));
            e != [] && HeaderCandidates(e) == Some([HeaderNames(w).before, HeaderNames(w).after])
  {
    hide WellFormed, AllSilent, RenderFile, PrefaceLines, WithEnds, IsClear, IsVague, HeaderText, SectionPaths;
    hide QuotesBroken, FirstTrailing, FirstBinary, MarkedBelow, PairAt, TailOk, ShownOld, ShownNew, HunksHide;
    hide GitPairAt, BlockOf;
    var r, h := RenderFile(w), w.preface.header;
    var e := WithEnds(r);
    FileParts(w);
    assert r[0] == "diff --git " + HeaderText(h);
    ClearOrVague(w);
    if IsClear(h) {
      ClearGitHeader(h);
    } else {
      VagueGitHeader(h);
      FileTrailing(w);
      OnePair(w);
      if IsPure(w) { PureIsRenamed(w); } else { FilePair(w); }
    }
  }

  lemma ClearOrVague(w: Written)
    requires WellFormed(w) && w.preface.GitPreface?
    ensures IsClear(w.preface.header) || IsVague(w.preface.header)
  {
    hide IsClear, IsVague, HunksFit, PathOk, PrefixesMatch, Agrees, RenameOk;
  }

  lemma PureIsRenamed(w: Written)
    requires WellFormed(w) && IsPure(w)
    ensures w.preface.GitPreface? && w.preface.rename.Some?
  {
    hide PrefaceOk, HunksFit;
  }

  /** A file is judged by the paths of its header, its `rename` lines and its pair, and by what these share. */
  lemma {:induction false} FileCandidates(w: Written)
    requires IsGitFile(w) && !HunksHide(w.file.hunks) && AllText(RenderFile(w)) && (IsPure(w) || TailsOk(w))
    ensures var e := WithEnds(RenderFile(w)); e != [] && GitCandidates(e) == Some(NamesOf(w))
  {
    hide IsGitFile, RenderFile, PrefaceLines, WithEnds, HeaderCandidates, HeaderNames, Metadata, IsRelocated;
    hide MarkedBelow, Suffix, GitPairAt, PairAt, TailOk, ShownOld, ShownNew, HunksHide, AllText;
    FileHeaderCandidates(w);
    FileMetadata(w);
    OnePair(w);
    GitFileIs(w);
    var h, renamed := HeaderNames(w), w.preface.rename.Some?;
    assert HeaderSuffix(renamed, [h.before, h.after]) == Shared(w, h.before, h.after);
    if IsPure(w) {
      assert forall s: seq<string> :: s + [] == s;
    } else {
      FilePair(w);
      assert PairCandidates(renamed, Paths(ShownOld(w), ShownNew(w)))
          == Shared(w, ShownOld(w), ShownNew(w)) + [ShownOld(w), ShownNew(w)];
    }
  }

  lemma GitFileIs(w: Written)
    requires IsGitFile(w)
    ensures WellFormed(w) && w.preface.GitPreface?
  {
    hide WellFormed;
  }

  lemma {:induction false} UnreadableTails(w: Written)
    requires IsGitFile(w) && !HunksHide(w.file.hunks) && AllText(RenderFile(w)) && !IsPure(w) && !TailsOk(w)
    ensures var e := WithEnds(RenderFile(w)); e != [] && GitCandidates(e) == None
  {
    hide IsGitFile, RenderFile, PrefaceLines, WithEnds, HeaderCandidates, Metadata, IsRelocated;
    hide MarkedBelow, GitPairAt, PairAt, TailsOk, ShownOld, ShownNew, HunksHide, AllText;
    OnePair(w);
    FilePair(w);
  }

  /** The verdict on the section of a file. */
  lemma {:induction false} GitFileJudged(w: Written, isExcluded: string -> bool)
    requires IsGitFile(w) && AllText(RenderFile(w))
    ensures var e := WithEnds(RenderFile(w)); e != [] && GitVerdict(e, isExcluded) == Judged(w, isExcluded)
  {
    hide IsGitFile, RenderFile, WithEnds, GitCandidates, MarkedBelow, NamesOf, TailsOk, HunksHide, AllText, Verdict;
    GitFileIs(w);
    FileNotEmpty(w);
    if HunksHide(w.file.hunks) {
      TwoPairs(w);
    } else {
      OnePair(w);
      if IsPure(w) || TailsOk(w) { FileCandidates(w); } else { UnreadableTails(w); }
    }
  }

  // ----- the sections of a git patch

  /** Only the first line of a file starts a section. */
  lemma {:induction false} FileSections(w: Written, i: nat)
    requires IsGitFile(w) && i < |RenderFile(w)|
    ensures IsGitLine(RenderFile(w)[i]) <==> i == 0
  {
    hide WellFormed, AllSilent, RenderFile, PrefaceLines, HeaderText, IsGitLine, BlockOf;
    var r, n := RenderFile(w), |PrefaceLines(w.preface, w.file)|;
    FileParts(w);
    if i == 0 {
      HeadIsGitLine(w.preface.header);
    } else if i < n {
      PrefaceLine(w, i);
    } else {
      BlockOfChars(w);
      assert r[i] == BlockOf(w)[i - n];
      DiffCharNoGitLine(r[i]);
    }
  }

  lemma HeadIsGitLine(h: Header)
    ensures IsGitLine("diff --git " + HeaderText(h))
  {
    hide HeaderText;
    HeadLetter(h);
  }

  lemma DiffCharNoGitLine(line: string)
    requires DiffChar(line)
    ensures !IsGitLine(line)
  {
  }

  lemma GitLineIsMark(lines: seq<string>, i: nat)
    requires i < |lines|
    ensures Marks(WithEnds(lines), i, GitSection) <==> IsGitLine(lines[i])
  {
    hide WithEnds;
    PrefixBeforeEnd("diff --git ", lines[i]);
    PrefixBeforeEnd("diff --cc ", lines[i]);
    PrefixBeforeEnd("diff --combined ", lines[i]);
  }

  lemma {:induction false} GitLinesAreFronts(ws: seq<Written>, i: nat)
    requires AllGitFiles(ws) && AllWellFormed(ws) && i < |RenderFiles(ws)|
    ensures IsGitLine(RenderFiles(ws)[i]) <==> i in Fronts(ws)
  {
    hide IsGitFile, WellFormed, RenderFile, IsGitLine, Fronts;
    var first, rest := RenderFile(ws[0]), RenderFiles(ws[1..]);
    assert IsGitFile(ws[0]);
    FileNotEmpty(ws[0]);
    FrontsCons(ws, i);
    if i < |first| {
      FileSections(ws[0], i);
      assert RenderFiles(ws)[i] == first[i];
    } else {
      assert RenderFiles(ws)[i] == rest[i - |first|];
      GitLinesAreFronts(ws[1..], i - |first|);
    }
  }

  /** The git sections of the patch are its files. */
  lemma {:induction false} GitSectionsAreFiles(ws: seq<Written>)
    requires AllGitFiles(ws) && AllWellFormed(ws)
    ensures GitStarts(WithEnds(RenderFiles(ws))) == Fronts(ws)
  {
    hide AllGitFiles, WellFormed, RenderFiles, Marks, MarkedBelow, Fronts, WithEnds, IsGitLine;
    var lines := RenderFiles(ws);
    var e := WithEnds(lines);
    FrontsIncrease(ws);
    MarkedBelowFacts(e, GitSection, |e|);
    forall i: nat ensures i in GitStarts(e) <==> i in Fronts(ws) {
      if i < |lines| {
        GitLineIsMark(lines, i);
        GitLinesAreFronts(ws, i);
      }
    }
    SameNumbers(GitStarts(e), Fronts(ws), |e|);
  }

  lemma {:induction false} SectionIsFile(ws: seq<Written>, isExcluded: string -> bool, k: nat)
    requires AllGitFiles(ws) && AllWellFormed(ws) && AllText(RenderFiles(ws)) && k < |ws|
    ensures var e := WithEnds(RenderFiles(ws));
            && |GitVerdicts(e, isExcluded)| == |Fronts(ws)| && Increasing(Fronts(ws), |e|)
            && GitVerdicts(e, isExcluded)[k] == Judged(ws[k], isExcluded)
            && Flatten(Section(e, Fronts(ws), k)) == JoinLines(RenderFile(ws[k]))
  {
    hide IsGitFile, WellFormed, RenderFile, RenderFiles, Fronts, JoinLines, MarkedBelow, GitVerdict, WithEnds, Flatten;
    hide Judged, IsTextLine;
    var lines := RenderFiles(ws);
    GitSectionsAreFiles(ws);
    FrontsIncrease(ws);
    FrontsCut(ws, k);
    var i, j := Fronts(ws)[k], Bound(lines, Fronts(ws), k + 1);
    EndsOfCut(lines, i, j);
    FlattenEnds(RenderFile(ws[k]));
    assert forall m :: 0 <= m < j - i ==> lines[i..j][m] == lines[i + m];
    assert AllText(RenderFile(ws[k]));
    assert IsGitFile(ws[k]);
    GitFileJudged(ws[k], isExcluded);
  }

  lemma {:induction false} GitRedactIsWanted(ws: seq<Written>, isExcluded: string -> bool, sentinel: string, k: nat)
    requires AllGitFiles(ws) && AllWellFormed(ws) && AllText(RenderFiles(ws)) && k <= |ws|
    ensures var e := WithEnds(RenderFiles(ws));
            && |GitVerdicts(e, isExcluded)| == |Fronts(ws)| && Increasing(Fronts(ws), |e|)
            && Redact("", e, Fronts(ws), GitVerdicts(e, isExcluded), sentinel, k)
                == Wanted(ws, isExcluded, sentinel, k)
  {
    hide AllGitFiles, WellFormed, RenderFile, RenderFiles, Fronts, JoinLines, GitVerdicts, WithEnds, AllText, Flatten;
    hide Judged, Section, Increasing, GitStarts;
    GitSectionsAreFiles(ws);
    FrontsIncrease(ws);
    if k > 0 {
      GitRedactIsWanted(ws, isExcluded, sentinel, k - 1);
      SectionIsFile(ws, isExcluded, k - 1);
    }
  }

  /**
   Whatever is excluded, filtering a git patch replaces exactly the excluded files, and fails exactly if
   one of them cannot be judged.
   */
  lemma {:induction false} GitFilteredExactly(ws: seq<Written>, isExcluded: string -> bool)
    requires AllGitFiles(ws) && AllWellFormed(ws) && ws != [] && AllText(RenderFiles(ws))
    ensures FilteredAsWanted(ws, isExcluded)
  {
    hide AllGitFiles, WellFormed, RenderFiles, Fronts, JoinLines, MarkedBelow, WithEnds, AllText, Flatten, Redact;
    hide Wanted, Judged, SplitInclusive, Newline, GitVerdict;
    var diff, e := JoinLines(RenderFiles(ws)), WithEnds(RenderFiles(ws));
    SplitJoined(RenderFiles(ws));
    GitSectionsAreFiles(ws);
    FirstFront(ws);
    NoPreamble(e, SentinelLine(diff), isExcluded);
    GitRedactIsWanted(ws, isExcluded, SentinelLine(diff), |ws|);
    forall k | 0 <= k < |ws| ensures GitVerdicts(e, isExcluded)[k] == Judged(ws[k], isExcluded) {
      SectionIsFile(ws, isExcluded, k);
    }
  }

  lemma NoPreamble(lines: seq<string>, sentinel: string, isExcluded: string -> bool)
    ensures PreambleResult(lines[..0], sentinel, isExcluded) == Success(Filtered("", false, true))
  {
    assert lines[..0] == [];
  }

  // ----- an ordinary file

  /** The file has one path, which git writes with its own prefixes, and every line of it can be read. */
  ghost predicate IsOrdinary(w: Written, path: string) {
    && IsGitFile(w) && !IsPure(w) && !HunksHide(w.file.hunks) && TailsOk(w)
    && w.preface.rename.None? && w.prefixed && w.file.oldPath == path == w.file.newPath
    && IsClear(w.preface.header) && w.preface.header.before == "a/" + path && w.preface.header.after == "b/" + path
  }

  lemma {:induction false} JoinedEnd(names: seq<string>)
    requires names != [] && AllNames(names)
    ensures var path := JoinParts(names); path != [] && path[0] != '/' && path[|path| - 1] != '/'
  {
    if |names| > 1 { JoinedEnd(names[1..]); }
  }

  predicate IsUnpadded(path: string) {
    path != [] && !IsWhitespace(path[0]) && !IsWhitespace(path[|path| - 1])
  }

  lemma {:induction false} PrefixedProper(dir: string, path: string)
    requires (dir == "a/" || dir == "b/") && IsUnpadded(path)
    ensures IsProper(dir + path)
  {
    hide Trim, IsWhitespace;
    var s := dir + path;
    assert s[0] == dir[0] && s[|s| - 1] == path[|path| - 1];
    Blanks();
    Untrimmed(s);
  }

  lemma Dirs()
    ensures CommonTail(Parts("a"), Parts("b")) == []
  {
    hide Parts;
    PartsOfJoined(["a"]);
    PartsOfJoined(["b"]);
    assert JoinParts(["a"]) == "a" && JoinParts(["b"]) == "b";
  }

  /** What the two prefixed forms of a path share is the path. */
  lemma {:induction false} PrefixedShare(names: seq<string>)
    requires names != [] && AllNames(names) && IsUnpadded(JoinParts(names))
    ensures var path := JoinParts(names); Suffix(Paths("a/" + path, "b/" + path)) == Some(path)
  {
    hide Suffix, JoinParts, CommonTail, IsUnpadded, IsProper;
    var path := JoinParts(names);
    assert Under("a", names) == "a/" + path && Under("b", names) == "b/" + path;
    Dirs();
    PrefixedProper("a/", path);
    PrefixedProper("b/", path);
    CustomPrefixSeen("a", "b", names);
  }

  /** The path, with its prefixes or without, or without a directory that looks like one. */
  predicate IsExcludedPath(path: string, isExcluded: string -> bool) {
    || isExcluded(path) || isExcluded("a/" + path) || isExcluded("b/" + path)
    || (("a/" <= path || "b/" <= path) && isExcluded(path[2..]))
  }

  lemma PathHits(path: string, isExcluded: string -> bool)
    requires IsUnpadded(path) && path[0] != '/' && path[|path| - 1] != '/'
    ensures NormalizePath(path, false) == Some(path)
    ensures IsExcludedPath(path, isExcluded) <==>
            exists strip, p :: p in ["a/" + path, "b/" + path, path] && IsHit(p, strip, isExcluded)
  {
    hide IsWhitespace, Trim;
    var candidates := ["a/" + path, "b/" + path, path];
    PrefixedPath("a/", path);
    PrefixedPath("b/", path);
    Untrimmed(path);
    var bare := if "a/" <= path || "b/" <= path then path[2..] else path;
    assert bare != [];
    assert NormalizePath(path, true) == Some(bare);
    assert candidates[0] in candidates && candidates[1] in candidates && candidates[2] in candidates;
    assert IsHit(path, false, isExcluded) == isExcluded(path) && IsHit(path, true, isExcluded) == isExcluded(bare);
    assert IsHit("a/" + path, false, isExcluded) == isExcluded("a/" + path);
    assert IsHit("b/" + path, false, isExcluded) == isExcluded("b/" + path);
    assert IsHit("a/" + path, true, isExcluded) == isExcluded(path) == IsHit("b/" + path, true, isExcluded);
  }

  lemma VerdictOf(candidates: seq<string>, names: seq<string>, isExcluded: string -> bool)
    requires (forall p :: p in candidates <==> p in names)
    requires exists p :: p in names && NormalizePath(p, false).Some?
    ensures Verdict(candidates, isExcluded) == Some(exists strip, p :: p in names && IsHit(p, strip, isExcluded))
  {
    hide NormalizePath, IsHit;
    var p :| p in names && NormalizePath(p, false).Some?;
    assert p in candidates;
    var i :| 0 <= i < |candidates| && candidates[i] == p;
    assert NormalizePath(candidates[i], false).Some?;
    if strip, q :| q in names && IsHit(q, strip, isExcluded) {
      assert q in candidates;
      var j :| 0 <= j < |candidates| && candidates[j] == q;
      assert IsHit(candidates[j], strip, isExcluded);
    }
  }

  /** An ordinary file is replaced exactly if its path is excluded, with or without the prefixes. */
  lemma {:induction false} OrdinaryFileJudged(w: Written, names: seq<string>, isExcluded: string -> bool)
    requires names != [] && AllNames(names) && IsUnpadded(JoinParts(names)) && IsOrdinary(w, JoinParts(names))
    ensures Judged(w, isExcluded) == Some(IsExcludedPath(JoinParts(names), isExcluded))
  {
    hide JoinParts, IsUnpadded, IsGitFile, HunksHide, TailsOk, IsClear, Suffix, Verdict, IsHit, NormalizePath;
    hide IsExcludedPath;
    var path := JoinParts(names);
    JoinedEnd(names);
    PrefixedShare(names);
    PathHits(path, isExcluded);
    GitFileIs(w);
    var all := ["a/" + path, "b/" + path, path];
    assert path != "/dev/null";
    assert NamesOf(w) == ["a/" + path, "b/" + path, path, path, "a/" + path, "b/" + path];
    VerdictOf(NamesOf(w), all, isExcluded);
  }
}
