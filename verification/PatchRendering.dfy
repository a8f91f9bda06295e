/** Multi-file patches in unified diff form, rendered, and when parsing gives them back. */
module PatchRendering {
  import opened Wrappers
  import opened Text
  import opened Decimals
  import opened Whitespace
  import opened GitQuoting
  import opened DiffHeaders
  import opened HunkParsing
  import opened PatchParsing

  // ----- how a patch is written

  /** A path on a `---` or `+++` line: alone, in front of a tab, or quoted, with more behind it. */
  datatype PathStyle = Bare | Noted(note: string) | GitQuoted(behind: string)

  /** The two paths of a git header, each as it is or quoted. */
  datatype Header = Header(before: string, quoteBefore: bool, after: string, quoteAfter: bool)

  /** Whether the paths of `rename` lines are quoted. */
  datatype RenameStyle = RenameStyle(quoteFrom: bool, quoteTo: bool)

  /** A git header, and the lines behind it with or without a pair of `rename` lines among them. */
  datatype Preface =
    | NoPreface
    | GitPreface(header: Header, metadata: seq<string>, rename: Option<RenameStyle>, more: seq<string>)

  /** A file patch and how it is written; `prefixed` paths carry `a/` and `b/`. */
  datatype Written = Written(
    file: FilePatch,
    preface: Preface,
    prefixed: bool,
    oldStyle: PathStyle,
    newStyle: PathStyle,
    styles: seq<Style>)

  // ----- headers and metadata

  function HeaderText(h: Header): string {
    TokenText(h.before, h.quoteBefore) + (" " + TokenText(h.after, h.quoteAfter))
  }

  /** A header of two tokens, or of the same path twice that reads back although it may hold spaces. */
  predicate IsClear(h: Header) {
    || (TokenOk(h.before, h.quoteBefore) && TokenOk(h.after, h.quoteAfter))
    || (!h.quoteBefore && !h.quoteAfter
        && "a/" <= h.before && "b/" <= h.after && h.before[2..] == h.after[2..] && Readable(h.before[2..]))
  }

  predicate HasThirdWord(s: string) {
    var second := TrimStart(s[TokenEnd(s)..]);
    second != [] && !AllWhitespace(second[TokenEnd(second)..])
  }

  /**
   Unquoted paths with spaces that cannot be told apart: at least three words, and no split into the
   same path twice.
   */
  ghost predicate IsVague(h: Header) {
    var text := HeaderText(h);
    && !h.quoteBefore && !h.quoteAfter && '"' !in text
    && !IsWhitespace(text[0]) && !IsWhitespace(text[|text| - 1]) && HasThirdWord(text)
    && forall pos: nat :: !Accepted(text, pos)
  }

  predicate IsIdle(line: string) {
    !StartsFile(line) && !("rename from " <= line) && !("rename to " <= line)
  }

  predicate AllIdle(lines: seq<string>) {
    forall i :: 0 <= i < |lines| ==> IsIdle(lines[i])
  }

  /** A path behind `rename from` or `rename to`, where blanks inside do no harm. */
  predicate RenameOk(path: string, quoted: bool) {
    path != [] && (quoted || (path[0] != '"' && !IsWhitespace(path[0]) && !IsWhitespace(path[|path| - 1])))
  }

  /** A header that can be read names the paths of the file, with prefixes or without. */
  predicate Agrees(h: Header, f: FilePatch) {
    IsClear(h) ==>
      && h.before != "" && h.after != ""
      && (Paths(h.before, h.after) == Paths(f.oldPath, f.newPath)
          || Paths(Normalize(h.before), Normalize(h.after)) == Paths(f.oldPath, f.newPath))
  }

  ghost predicate PrefaceOk(p: Preface, f: FilePatch) {
    p.GitPreface? ==>
      && (IsClear(p.header) || IsVague(p.header)) && AllIdle(p.metadata) && AllIdle(p.more)
      && (p.rename.Some? ==>
            RenameOk(f.oldPath, p.rename.value.quoteFrom) && RenameOk(f.newPath, p.rename.value.quoteTo)
            && Agrees(p.header, f))
  }

  function RenameLines(r: Option<RenameStyle>, f: FilePatch): seq<string> {
    if r.None? then []
    else ["rename from " + TokenText(f.oldPath, r.value.quoteFrom),
        "rename to " + TokenText(f.newPath, r.value.quoteTo)]
  }

  function PrefaceLines(p: Preface, f: FilePatch): seq<string> {
    if p.NoPreface? then []
    else ["diff --git " + HeaderText(p.header)] + (p.metadata + (RenameLines(p.rename, f) + p.more))
  }

  // ----- file blocks

  predicate PathOk(shown: string, style: PathStyle) {
    match style
    case Bare => IsWord(shown) && shown[0] != '"'
    case Noted(_) =>
      && shown != [] && shown[0] != '"' && '\t' !in shown
      && !IsWhitespace(shown[0]) && !IsWhitespace(shown[|shown| - 1])
    case GitQuoted(behind) => behind == [] || IsWhitespace(behind[0])
  }

  function PathLine(prefix: string, shown: string, style: PathStyle): string {
    match style
    case Bare => prefix + shown
    case Noted(note) => prefix + (shown + ("\t" + note))
    case GitQuoted(behind) => prefix + (Quoted(shown) + behind)
  }

  function WritePath(path: string, dir: string): string {
    if path == "/dev/null" then path else dir + path
  }

  function ShownOld(w: Written): string {
    if w.prefixed then WritePath(w.file.oldPath, "a/") else w.file.oldPath
  }

  function ShownNew(w: Written): string {
    if w.prefixed then WritePath(w.file.newPath, "b/") else w.file.newPath
  }

  /** What the parser knows about the paths when it comes to the file block. */
  function KnownBefore(p: Preface, f: FilePatch): Known
    requires p.GitPreface?
  {
    var h := Paths(p.header.before, p.header.after);
    if p.rename.None? then
      (if IsClear(p.header) then Known(h, Some(ShouldStrip(h.before, h.after)), false)
          else Known(Paths("", ""), None, false))
    else
      Known(Paths(f.oldPath, f.newPath), if IsClear(p.header) then Some(h != Paths(f.oldPath, f.newPath))
          else None, true)
  }

  function StripOf(w: Written): Option<bool> {
    if w.preface.NoPreface? then None else KnownBefore(w.preface, w.file).strip
  }

  /** Prefixes are written exactly where the parser takes them off. */
  predicate PrefixesMatch(w: Written) {
    w.prefixed == if StripOf(w).Some? then StripOf(w).value else ShouldStrip(ShownOld(w), ShownNew(w))
  }

  predicate HunksFit(hunks: seq<Hunk>, styles: seq<Style>) {
    |styles| == |hunks| && forall i :: 0 <= i < |hunks| ==> Fits(hunks[i], styles[i]) && Consistent(hunks[i])
  }

  /** A rename that changes nothing else has no file block. */
  predicate IsPure(w: Written) {
    w.file.hunks == []
  }

  ghost predicate WellFormed(w: Written) {
    && w.file.oldPath != "" && w.file.newPath != "" && Acceptable(w.file) && PrefaceOk(w.preface, w.file)
    && HunksFit(w.file.hunks, w.styles)
    && (if IsPure(w) then w.preface.GitPreface? && w.preface.rename.Some?
        else PathOk(ShownOld(w), w.oldStyle) && PathOk(ShownNew(w), w.newStyle) && PrefixesMatch(w))
  }

  function RenderHunks(hunks: seq<Hunk>, styles: seq<Style>): seq<string>
    requires HunksFit(hunks, styles)
  {
    if hunks == [] then [] else RenderHunk(hunks[0], styles[0]) + RenderHunks(hunks[1..], styles[1..])
  }

  ghost function RenderBlock(w: Written): seq<string>
    requires WellFormed(w)
  {
    [PathLine("--- ", ShownOld(w), w.oldStyle), PathLine("+++ ", ShownNew(w), w.newStyle)]
        + RenderHunks(w.file.hunks, w.styles)
  }

  ghost function RenderFile(w: Written): seq<string>
    requires WellFormed(w)
  {
    PrefaceLines(w.preface, w.file) + if IsPure(w) then [] else RenderBlock(w)
  }

  ghost predicate AllWellFormed(ws: seq<Written>) {
    forall i :: 0 <= i < |ws| ==> WellFormed(ws[i])
  }

  ghost function RenderFiles(ws: seq<Written>): seq<string>
    requires AllWellFormed(ws)
  {
    if ws == [] then [] else RenderFile(ws[0]) + RenderFiles(ws[1..])
  }

  function FilesOf(ws: seq<Written>): seq<FilePatch> {
    if ws == [] then [] else [ws[0].file] + FilesOf(ws[1..])
  }

  /** Some removed line would be taken for the header of the next file. */
  ghost predicate AmbiguousHunks(hunks: seq<Hunk>) {
    hunks != [] && (Ambiguous(hunks[0].lines) || AmbiguousHunks(hunks[1..]))
  }

  ghost predicate AmbiguousFiles(ws: seq<Written>) {
    ws != [] && (AmbiguousHunks(ws[0].file.hunks) || AmbiguousFiles(ws[1..]))
  }

  /** A file without a git header, directly behind a pure rename, is taken for the file block of that rename. */
  ghost predicate Swallows(ws: seq<Written>) {
    |ws| >= 2 && ((IsPure(ws[0]) && ws[1].preface.NoPreface?) || Swallows(ws[1..]))
  }

  // ----- round trips

  ghost predicate EndsFile(tail: seq<string>) {
    tail == [] || StartsFile(tail[0])
  }

  lemma AtLineKind(line: string)
    requires "@@" <= line
    ensures EndsBody(line) && !IsBlank(line) && !StartsFile(line) && !IsMetadata(line)
  {
    hide IsWhitespace, TrimStart, TrimEnd;
    assert line[0] == '@' && line[1] == '@';
    AtSign();
    UntrimmedStart(line);
    TrimEmpty(line);
  }

  lemma HeaderLineKind(h: Hunk, style: Style)
    requires Fits(h, style)
    ensures var line := RenderHeader(h, style);
            "@@" <= line && EndsBody(line) && !IsBlank(line) && !StartsFile(line) && !IsMetadata(line)
  {
    hide RenderRanges, EndsBody, IsBlank, StartsFile, IsMetadata;
    var line := RenderHeader(h, style);
    assert line[..2] == "@@";
    AtLineKind(line);
  }

  /** Rendered hunks are read back, up to the next file, unless one of them is ambiguous. */
  lemma {:induction false} HunksRoundTrip(hunks: seq<Hunk>, styles: seq<Style>, tail: seq<string>)
    requires HunksFit(hunks, styles) && EndsFile(tail)
    ensures FileHunks(RenderHunks(hunks, styles) + tail) == if AmbiguousHunks(hunks) then Failure(Rejected)
            else Success(ParsedHunks(hunks, tail))
    ensures RenderHunks(hunks, styles) + tail == [] || EndsBody((RenderHunks(hunks, styles) + tail)[0])
  {
    hide HunkAt, IsBlank, IsMetadata, Fits, Consistent, RenderHeader, RenderBody, Ambiguous;
    if hunks == [] {
      assert RenderHunks(hunks, styles) + tail == tail;
      if tail != [] { StartsFileKind(tail[0]); }
    } else {
      hide StartsFile, EndsBody;
      HunksRoundTrip(hunks[1..], styles[1..], tail);
      HeaderLineKind(hunks[0], styles[0]);
      var more := RenderHunks(hunks[1..], styles[1..]) + tail;
      HunkRoundTrip(hunks[0], styles[0], more);
      assert RenderHunks(hunks, styles) + tail == RenderHunk(hunks[0], styles[0]) + more;
      assert [hunks[0]] + hunks[1..] == hunks;
    }
  }

  lemma StartsFileKind(line: string)
    requires StartsFile(line)
    ensures EndsBody(line) && !IsBlank(line)
  {
    hide IsWhitespace, TrimStart, TrimEnd;
    assert line[0] in {'d', '-'};
    HeaderLetters();
    UntrimmedStart(line);
    TrimEmpty(line);
  }

  lemma HeaderLetters()
    ensures !IsWhitespace('d') && !IsWhitespace('-')
  {
  }

  lemma WordHasNoTab(word: string)
    requires NoWhitespace(word)
    ensures '\t' !in word
  {
  }

  /** A word alone is the path; with more behind it, that has to look like a timestamp. */
  lemma WordPath(word: string, prefix: string, more: string)
    requires IsWord(word) && word[0] != '"' && '\t' !in more && (more == [] || IsWhitespace(more[0]))
    ensures ParsePath(prefix + (word + more), prefix) ==
            if IsBlank(more) || StartsWithDate(Trim(more)) then Some(word) else None
  {
    hide IsWhitespace, TrimStart, TokenEnd, SplitOnce, Trim;
    var rest := word + more;
    assert (prefix + rest)[|prefix|..] == rest && prefix <= prefix + rest;
    UntrimmedStart(rest);
    WordHasNoTab(word);
    NotSplit(rest, "\t");
    TokenEndOf(word, more);
    assert rest[..|word|] == word && rest[|word|..] == more;
  }

  /** With a tab behind it, a path may hold spaces, and anything may follow the tab. */
  lemma NotedPath(path: string, prefix: string, note: string)
    requires path != [] && !IsWhitespace(path[0]) && path[0] != '"' && '\t' !in path && !IsWhitespace(path[|path| - 1])
    ensures ParsePath(prefix + (path + ("\t" + note)), prefix) == Some(path)
  {
    hide IsWhitespace, TrimStart, TrimEnd, TokenEnd, SplitOnce, StartsWithDate;
    var rest := path + ("\t" + note);
    assert (prefix + rest)[|prefix|..] == rest && prefix <= prefix + rest;
    UntrimmedStart(rest);
    SplitOnceAt(path, "\t", note);
    TrimEndOf(path, "");
    assert path + "" == path;
  }

  lemma QuotedPathLine(path: string, prefix: string, behind: string)
    requires behind == [] || IsWhitespace(behind[0])
    ensures ParsePath(prefix + (Quoted(path) + behind), prefix) == Some(path)
  {
    hide IsWhitespace, TrimStart, TrimEnd, TokenEnd, SplitOnce, StartsWithDate, Quoted, ParseDiffToken;
    var rest := Quoted(path) + behind;
    assert (prefix + rest)[|prefix|..] == rest && prefix <= prefix + rest;
    QuotedEnds(path);
    assert rest[0] == '"';
    QuoteIsNoBlank();
    UntrimmedStart(rest);
    GitQuotingRoundTrip("", path, behind);
    assert "" + rest == rest;
  }

  /** A path line is read back, however the path is written. */
  lemma PathLineRoundTrip(shown: string, prefix: string, style: PathStyle)
    requires PathOk(shown, style)
    ensures ParsePath(PathLine(prefix, shown, style), prefix) == Some(shown) && prefix <= PathLine(prefix, shown, style)
  {
    hide ParsePath, IsWhitespace, IsBlank, StartsWithDate, Quoted;
    match style {
      case Bare =>
        WordPath(shown, prefix, "");
        BlankNothing();
        assert prefix + (shown + "") == prefix + shown;
      case Noted(note) =>
        NotedPath(shown, prefix, note);
      case GitQuoted(behind) =>
        QuotedPathLine(shown, prefix, behind);
    }
  }

  lemma BlankNothing()
    ensures IsBlank("")
  {
    TrimEmpty("");
  }

  lemma StrippedPaths(w: Written)
    requires w.prefixed
    ensures Normalize(ShownOld(w)) == w.file.oldPath && Normalize(ShownNew(w)) == w.file.newPath
  {
    var o, n := ShownOld(w), ShownNew(w);
    if w.file.oldPath != "/dev/null" { assert o[1] == '/' && o[0] == 'a' && o[2..] == w.file.oldPath; }
    if w.file.newPath != "/dev/null" { assert n[1] == '/' && n[0] == 'b' && n[2..] == w.file.newPath; }
  }

  /** Whether or not prefixes are taken off, a rendered block ends where its file ends, or is rejected. */
  lemma BlockEnds(w: Written, strip: Option<bool>, tail: seq<string>)
    requires WellFormed(w) && !IsPure(w) && EndsFile(tail)
    ensures var r := UnifiedBlock(RenderBlock(w) + tail, strip);
            && (AmbiguousHunks(w.file.hunks) ==> r == Failure(Rejected))
            && (r.Failure? ==> r == Failure(Rejected)) && (r.Success? ==> r.value.rest == tail)
            && (!AmbiguousHunks(w.file.hunks) ==>
                  var strips := if strip.Some? then strip.value else ShouldStrip(ShownOld(w), ShownNew(w));
                  r.Success? && r.value.file == FilePatch(
                    if strips then Normalize(ShownOld(w)) else ShownOld(w),
                    if strips then Normalize(ShownNew(w)) else ShownNew(w), w.file.hunks))
  {
    hide ParsePath, FileHunks, Normalize, ShownOld, ShownNew, PathLine, PathOk, PrefaceOk, EndsFile, AmbiguousHunks;
    hide HunksFit, RenderHunks, PrefixesMatch, ShouldStrip;
    var lines := RenderBlock(w) + tail;
    PathLineRoundTrip(ShownOld(w), "--- ", w.oldStyle);
    PathLineRoundTrip(ShownNew(w), "+++ ", w.newStyle);
    HunksRoundTrip(w.file.hunks, w.styles, tail);
    assert lines[0] == PathLine("--- ", ShownOld(w), w.oldStyle)
           && lines[1] == PathLine("+++ ", ShownNew(w), w.newStyle);
    assert lines[2..] == RenderHunks(w.file.hunks, w.styles) + tail;
  }

  /** A rendered file block is read back, up to the next file, unless a hunk of it is ambiguous. */
  lemma BlockRoundTrip(w: Written, tail: seq<string>)
    requires WellFormed(w) && !IsPure(w) && EndsFile(tail)
    ensures UnifiedBlock(RenderBlock(w) + tail, StripOf(w)) ==
            if AmbiguousHunks(w.file.hunks) then Failure(Rejected) else Success(ParsedFile(w.file, tail))
  {
    hide UnifiedBlock, Normalize, ShownOld, ShownNew, PathOk, PrefaceOk, EndsFile, AmbiguousHunks, HunksFit;
    hide RenderBlock;
    hide ShouldStrip, StripOf;
    BlockEnds(w, StripOf(w), tail);
    if w.prefixed { StrippedPaths(w); } else { UnprefixedPaths(w); }
  }

  lemma UnprefixedPaths(w: Written)
    requires !w.prefixed
    ensures ShownOld(w) == w.file.oldPath && ShownNew(w) == w.file.newPath
  {
  }

  lemma BlockStarts(w: Written, tail: seq<string>)
    requires WellFormed(w) && !IsPure(w)
    ensures var block := RenderBlock(w) + tail;
            block != [] && "--- " <= block[0] && !("diff --git " <= block[0]) && EndsFile(block)
  {
    hide HunksFit, RenderHunks, PathOk, ShownOld, ShownNew, PathLine, PrefaceOk, PrefixesMatch;
    var block := RenderBlock(w) + tail;
    PathLineRoundTrip(ShownOld(w), "--- ", w.oldStyle);
    assert block[0] == PathLine("--- ", ShownOld(w), w.oldStyle) && block[0][0] == '-';
  }

  // ----- what stands in front of a file block

  lemma {:induction false} IdleMetadata(metadata: seq<string>, tail: seq<string>, renames: Renames)
    requires AllIdle(metadata)
    ensures ScanMetadata(metadata + tail, renames) == ScanMetadata(tail, renames)
  {
    hide StartsFile;
    if metadata == [] {
      assert metadata + tail == tail;
    } else {
      assert (metadata + tail)[1..] == metadata[1..] + tail;
      IdleMetadata(metadata[1..], tail, renames);
    }
  }

  lemma {:induction false} MetadataEnds(tail: seq<string>, renames: Renames)
    requires EndsFile(tail)
    ensures ScanMetadata(tail, renames) == Some(Metadata(renames, tail))
  {
  }

  lemma RenameLine(heading: string, path: string, quoted: bool)
    requires RenameOk(path, quoted)
    ensures RenamePath((heading + TokenText(path, quoted))[|heading|..]) == Some(path)
  {
    hide IsWhitespace, TrimStart, TrimEnd, ParseDiffToken, Quoted, Trim;
    var t := TokenText(path, quoted);
    assert (heading + t)[|heading|..] == t;
    if quoted {
      QuotedEnds(path);
      QuoteIsNoBlank();
      GitQuotingRoundTrip("", path, "");
      assert "" + (t + "") == t;
      BlankNothing();
    }
    Untrimmed(t);
  }

  /** A pair of `rename` lines, in whatever quoting, is noted. */
  lemma {:induction false} RenameMetadata(r: RenameStyle, f: FilePatch, tail: seq<string>)
    requires RenameOk(f.oldPath, r.quoteFrom) && RenameOk(f.newPath, r.quoteTo)
    ensures ScanMetadata(RenameLines(Some(r), f) + tail, Renames(None, None))
         == ScanMetadata(tail, Renames(Some(f.oldPath), Some(f.newPath)))
  {
    hide RenamePath, TokenText;
    var one, two := "rename from " + TokenText(f.oldPath, r.quoteFrom), "rename to " + TokenText(f.newPath, r.quoteTo);
    var lines := RenameLines(Some(r), f) + tail;
    RenameLine("rename from ", f.oldPath, r.quoteFrom);
    RenameLine("rename to ", f.newPath, r.quoteTo);
    assert one[0] == 'r' && two[0] == 'r' && two[7] == 't';
    assert lines[1..][0] == two && lines[1..][1..] == tail;
    assert NoteRename(one, Renames(None, None)) == Some(Renames(Some(f.oldPath), None));
    assert NoteRename(two, Renames(Some(f.oldPath), None)) == Some(Renames(Some(f.oldPath), Some(f.newPath)));
    assert ScanMetadata(lines[1..], Renames(Some(f.oldPath), None))
           == ScanMetadata(tail, Renames(Some(f.oldPath), Some(f.newPath)));
  }

  function RenamesOf(p: Preface, f: FilePatch): Renames
    requires p.GitPreface?
  {
    if p.rename.None? then Renames(None, None) else Renames(Some(f.oldPath), Some(f.newPath))
  }

  lemma {:induction false} MetadataRoundTrip(p: Preface, f: FilePatch, tail: seq<string>)
    requires p.GitPreface? && PrefaceOk(p, f) && EndsFile(tail)
    ensures ScanMetadata(p.metadata + (RenameLines(p.rename, f) + p.more) + tail, Renames(None, None))
         == Some(Metadata(RenamesOf(p, f), tail))
  {
    hide ScanMetadata, AllIdle, IsClear, IsVague, Agrees, RenameOk, EndsFile, RenameLines;
    var renames, more := RenameLines(p.rename, f), p.more + tail;
    assert p.metadata + (renames + p.more) + tail == p.metadata + (renames + more);
    IdleMetadata(p.metadata, renames + more, Renames(None, None));
    if p.rename.Some? { RenameMetadata(p.rename.value, f, more); } else { NoRenameLines(f, more); }
    IdleMetadata(p.more, tail, RenamesOf(p, f));
    MetadataEnds(tail, RenamesOf(p, f));
  }

  lemma NoRenameLines(f: FilePatch, more: seq<string>)
    ensures RenameLines(None, f) + more == more
  {
  }

  lemma SamePathTwice(before: string, after: string)
    requires "a/" <= before && "b/" <= after && before[2..] == after[2..]
    ensures HeaderRest(before[2..]) == before + (" " + after)
    ensures before == "a/" + before[2..] && after == "b/" + before[2..]
  {
    var path := before[2..];
    assert before == "a/" + path && after == "b/" + path;
    assert "a/" + (path + (" b/" + path)) == ("a/" + path) + (" " + ("b/" + path));
  }

  /** A clear header gives both paths. */
  lemma ClearHeader(h: Header)
    requires IsClear(h)
    ensures HeaderPaths("diff --git " + HeaderText(h)) == Success(Some(Paths(h.before, h.after)))
  {
    hide TokenText, TokenOk, TrimLineEnd, TrimStart, LooseHeaderPaths, Readable, GitPaths, HeaderText;
    var rest := HeaderText(h);
    assert ("diff --git " + rest)[11..] == rest && rest + "" == rest;
    if TokenOk(h.before, h.quoteBefore) && TokenOk(h.after, h.quoteAfter) {
      TokenRest(h.before, h.quoteBefore, h.after, h.quoteAfter, "");
    } else {
      SamePathTwice(h.before, h.after);
      RestRoundTrip(h.before[2..], "");
    }
    HeaderTextIs(h);
  }

  lemma HeaderTextIs(h: Header)
    ensures HeaderText(h) == TokenText(h.before, h.quoteBefore) + (" " + TokenText(h.after, h.quoteAfter))
    ensures !h.quoteBefore && !h.quoteAfter ==> HeaderText(h) == h.before + (" " + h.after)
  {
  }

  /** A vague header gives none, and is no error. */
  lemma VagueHeader(h: Header)
    requires IsVague(h)
    ensures HeaderPaths("diff --git " + HeaderText(h)) == Success(None)
  {
    hide HeaderText, HasThirdWord, Accepted, IsWhitespace, TokenPaths, LooseHeaderPaths, OnlySplit, TrimLineEnd, Trim;
    hide TrimStart;
    var text := HeaderText(h);
    assert ("diff --git " + text)[11..] == text;
    HeaderTextIs(h);
    NotLineBreak(text[|text| - 1]);
    TrimLineEndOf(text, "");
    assert text + "" == text;
    Untrimmed(text);
    UntrimmedStart(text);
    VagueTokens(text);
    NoSplit(text);
  }

  lemma NotLineBreak(c: char)
    requires !IsWhitespace(c)
    ensures !IsLineBreak(c)
  {
  }

  lemma NoSplit(text: string)
    requires forall pos: nat :: !Accepted(text, pos)
    ensures OnlySplit(text).None?
  {
    hide Accepted;
  }

  lemma {:induction false} PlainToken(input: string)
    requires var s := TrimStart(input); s != [] && s[0] != '"'
    ensures var s := TrimStart(input); ParseDiffToken(input) == Some(Token(s[..TokenEnd(s)], s[TokenEnd(s)..]))
  {
    hide TrimStart, TokenEnd;
  }

  lemma {:induction false} TrimmedIn(s: string)
    ensures TrimStart(s) != [] ==> TrimStart(s)[0] in s
  {
    hide TrimStart, IsWhitespace;
    var t := TrimStart(s);
    if t != [] { assert t[0] == s[|s| - |t|]; }
  }

  /** The first two words are plain tokens, and a third word follows them. */
  lemma {:induction false} ThreeWords(text: string) returns (rest: string, third: string)
    requires text != [] && '"' !in text && !IsWhitespace(text[0]) && HasThirdWord(text)
    ensures ParseDiffToken(text) == Some(Token(text[..TokenEnd(text)], rest))
    ensures var second := TrimStart(rest);
            && second != [] && second[0] != '"' && !AllWhitespace(third)
            && ParseDiffToken(rest) == Some(Token(second[..TokenEnd(second)], third)) == ParseDiffToken(second)
  {
    hide IsWhitespace, TrimStart, TokenEnd, ParseDiffToken;
    rest := text[TokenEnd(text)..];
    var second := TrimStart(rest);
    third := second[TokenEnd(second)..];
    UntrimmedStart(text);
    assert text[0] in text;
    PlainToken(text);
    TrimmedIn(rest);
    assert forall c :: c in rest ==> c in text;
    PlainToken(rest);
    UntrimmedStart(second);
    PlainToken(second);
  }

  lemma NotQuote(s: string)
    requires s != [] && s[0] != '"'
    ensures !("\"" <= s)
  {
  }

  lemma {:induction false} VagueTokens(text: string)
    requires text != [] && '"' !in text && !IsWhitespace(text[0]) && HasThirdWord(text)
    ensures TokenPaths(text).None? && LooseHeaderPaths(text) == Success(None)
  {
    hide IsWhitespace, TrimStart, Trim, TokenEnd, ParseDiffToken, HasThirdWord;
    var rest, third := ThreeWords(text);
    assert text[0] in text;
    NotQuote(text);
    NotQuote(TrimStart(rest));
    TrimEmpty(third);
  }

  /** Header, metadata and `rename` lines are read back, up to the file block or the next file. */
  lemma {:induction false} PrefaceRoundTrip(p: Preface, f: FilePatch, tail: seq<string>)
    requires p.GitPreface? && PrefaceOk(p, f) && EndsFile(tail) && f.oldPath != "" && f.newPath != ""
    ensures var lines := PrefaceLines(p, f) + tail;
            lines != [] && "diff --git " <= lines[0] && GitHeadOf(lines) == Some(GitHead(KnownBefore(p, f), tail))
  {
    hide HeaderPaths, ScanMetadata, IsClear, IsVague, AllIdle, RenameOk, EndsFile, RenameLines, HeaderText, Normalize;
    hide ShouldStrip;
    var lines := PrefaceLines(p, f) + tail;
    MetadataRoundTrip(p, f, tail);
    assert lines[0] == "diff --git " + HeaderText(p.header);
    assert lines[1..] == p.metadata + (RenameLines(p.rename, f) + p.more) + tail;
    if IsClear(p.header) { ClearHeader(p.header); } else { VagueHeader(p.header); }
    if p.rename.Some? && IsClear(p.header) {
      RenamesDecide(Paths(p.header.before, p.header.after), f.oldPath, f.newPath);
    }
  }

  /** `rename` lines settle the paths; the header only has to agree, with its prefixes or without. */
  lemma RenamesDecide(header: Paths, from: string, to: string)
    requires header.before != "" && header.after != "" && from != "" && to != ""
    ensures var k := Reconcile(Some(header), Renames(Some(from), Some(to)));
            && (k.Some? <==>
                  || header == Paths(from, to)
                  || Paths(Normalize(header.before), Normalize(header.after)) == Paths(from, to))
            && (k.Some? ==> k.value == Known(Paths(from, to), Some(header != Paths(from, to)), true))
  {
    hide Normalize;
  }

  // ----- files

  /** A pure rename in front of a file without a git header. */
  ghost predicate TakesNext(w: Written, tail: seq<string>) {
    IsPure(w) && tail != [] && "--- " <= tail[0]
  }

  /** A rendered file is read back, unless it is ambiguous or takes what follows for its own. */
  lemma {:induction false} FileRoundTrip(w: Written, tail: seq<string>)
    requires WellFormed(w) && EndsFile(tail) && !TakesNext(w, tail)
    ensures var lines := RenderFile(w) + tail;
            && lines != [] && StartsFile(lines[0])
            && BlockAt(lines) == if AmbiguousHunks(w.file.hunks) then Failure(Rejected)
                else Success(ParsedFile(w.file, tail))
  {
    hide UnifiedBlock, GitHeadOf, PrefaceLines, RenderBlock, PathOk, HunksFit, PrefixesMatch, PrefaceOk, EndsFile;
    hide StripOf;
    var block := if IsPure(w) then tail else RenderBlock(w) + tail;
    var lines := RenderFile(w) + tail;
    if !IsPure(w) {
      BlockStarts(w, tail);
      BlockRoundTrip(w, tail);
    }
    if w.preface.NoPreface? {
      BareFile(w, tail);
    } else {
      PrefaceRoundTrip(w.preface, w.file, block);
      assert lines == PrefaceLines(w.preface, w.file) + block;
      StripIsKnown(w);
      assert GitBlock(lines) == GitFile(KnownBefore(w.preface, w.file), block);
    }
  }

  function PureRename(from: string, to: string, prefixed: bool): Written {
    var before, after := if prefixed then "a/" + from else from, if prefixed then "b/" + to else to;
    var preface := GitPreface(Header(before, false, after, false), [], Some(RenameStyle(false, false)), []);
    Written(FilePatch(from, to, []), preface, prefixed, Bare, Bare, [])
  }

  lemma PureRenameOk(from: string, to: string, prefixed: bool)
    requires IsWord(from) && IsWord(to) && from != to && from[0] != '"' && to[0] != '"'
    ensures WellFormed(PureRename(from, to, prefixed)) && IsPure(PureRename(from, to, prefixed))
  {
    hide Readable, IsVague, IsWhitespace, Normalize;
    if prefixed {
      PrefixedWord("a/", from);
      PrefixedWord("b/", to);
    }
    var w := PureRename(from, to, prefixed);
    assert IsClear(w.preface.header);
    assert PrefaceOk(w.preface, w.file);
  }

  lemma PureRenameLines(from: string, to: string, prefixed: bool, tail: seq<string>)
    requires WellFormed(PureRename(from, to, prefixed))
    ensures var before, after := if prefixed then "a/" + from else from, if prefixed then "b/" + to else to;
            RenderFile(PureRename(from, to, prefixed)) + tail
            == ["diff --git " + (before + (" " + after))] + (["rename from " + from, "rename to " + to] + tail)
  {
    hide WellFormed;
  }

  /** Without prefixes in its header, a rename from `a/x` to `b/x` is not taken for an edit of `x`. */
  lemma RenameRoundTrip(from: string, to: string, prefixed: bool, tail: seq<string>)
    requires IsWord(from) && IsWord(to) && from != to && from[0] != '"' && to[0] != '"'
    requires tail == [] || "diff --git " <= tail[0]
    ensures var before, after := if prefixed then "a/" + from else from, if prefixed then "b/" + to else to;
            var lines := ["diff --git " + (before + (" " + after))]
                + (["rename from " + from, "rename to " + to] + tail);
            BlockAt(lines) == Success(ParsedFile(FilePatch(from, to, []), tail))
  {
    hide BlockAt, IsWord, WellFormed, RenderFile;
    PureRenameOk(from, to, prefixed);
    PureRenameLines(from, to, prefixed, tail);
    if tail != [] { assert tail[0][0] == 'd'; }
    FileRoundTrip(PureRename(from, to, prefixed), tail);
  }

  lemma PrefixedWord(dir: string, path: string)
    requires IsWord(path) && (dir == "a/" || dir == "b/")
    ensures IsWord(dir + path) && (dir + path)[0] != '"' && Normalize(dir + path) == path
  {
    hide IsWhitespace;
    Blanks();
    var w := dir + path;
    assert w[0] in {'a', 'b'} && w[1] == '/' && w[2..] == path;
  }

  lemma BareFile(w: Written, tail: seq<string>)
    requires WellFormed(w) && w.preface.NoPreface?
    ensures !IsPure(w) && RenderFile(w) + tail == RenderBlock(w) + tail && StripOf(w) == None
  {
    hide RenderBlock, HunksFit, PathOk, PrefixesMatch;
  }

  lemma StripIsKnown(w: Written)
    requires w.preface.GitPreface?
    ensures StripOf(w) == KnownBefore(w.preface, w.file).strip
    ensures w.preface.rename.Some? ==>
              KnownBefore(w.preface, w.file).paths == Paths(w.file.oldPath, w.file.newPath)
              && KnownBefore(w.preface, w.file).normalized
  {
  }

  /** A pure rename and the file behind it are read as one file, if at all. */
  lemma {:induction false} TakenForOne(w: Written, next: Written, tail: seq<string>)
    requires WellFormed(w) && IsPure(w) && WellFormed(next) && next.preface.NoPreface? && EndsFile(tail)
    ensures var lines := RenderFile(w) + (RenderFile(next) + tail);
            && lines != [] && StartsFile(lines[0])
            && (BlockAt(lines).Failure? ==> BlockAt(lines) == Failure(Rejected))
            && (BlockAt(lines).Success? ==> BlockAt(lines).value.rest == tail && !AmbiguousHunks(next.file.hunks))
  {
    hide UnifiedBlock, GitHeadOf, PrefaceLines, RenderBlock, PathOk, HunksFit, PrefixesMatch, PrefaceOk, EndsFile;
    hide KnownBefore;
    BareFile(next, tail);
    var block := RenderBlock(next) + tail;
    BlockStarts(next, tail);
    BlockEnds(next, KnownBefore(w.preface, w.file).strip, tail);
    PrefaceRoundTrip(w.preface, w.file, block);
    var lines := RenderFile(w) + (RenderFile(next) + tail);
    assert lines == PrefaceLines(w.preface, w.file) + block;
    assert GitBlock(lines) == GitFile(KnownBefore(w.preface, w.file), block);
  }

  /**
   Rendered files are read back unless a hunk of one of them is ambiguous, and then nothing is read, or a
   file is swallowed, and then there are fewer files, if any.
   */
  lemma {:induction false} FilesRoundTrip(ws: seq<Written>)
    requires AllWellFormed(ws)
    ensures var r := Files(RenderFiles(ws));
            && (AmbiguousFiles(ws) ==> r == Failure(Rejected))
            && (!AmbiguousFiles(ws) && !Swallows(ws) ==> r == Success(FilesOf(ws)))
            && (r.Failure? ==> r == Failure(Rejected))
            && (r.Success? ==> |r.value| <= |ws| && (Swallows(ws) ==> |r.value| < |ws|))
    ensures EndsFile(RenderFiles(ws)) && (ws != [] ==> RenderFiles(ws) != [] && FirstLine(ws[0], RenderFiles(ws)[0]))
  {
    hide BlockAt, IsBlank, IsMetadata, StartsFile, WellFormed, AmbiguousHunks, RenderFile, FirstLine;
    if ws != [] {
      var first, rest := ws[0], ws[1..];
      var tail := RenderFiles(rest);
      FilesRoundTrip(rest);
      FirstLineOf(first, tail);
      if rest != [] && IsPure(first) && rest[0].preface.NoPreface? {
        var more := RenderFiles(rest[1..]);
        FilesRoundTrip(rest[1..]);
        TakenForOne(first, rest[0], more);
        NoneAmbiguous(first);
      } else {
        NotTaken(first, rest);
        FileRoundTrip(first, tail);
      }
      StartsFileKind(RenderFiles(ws)[0]);
    }
  }

  /** A file starts with its git header if it has one, and otherwise with `---`. */
  predicate FirstLine(w: Written, line: string) {
    StartsFile(line) && ("--- " <= line <==> w.preface.NoPreface?)
  }

  lemma FirstLineOf(w: Written, tail: seq<string>)
    requires WellFormed(w)
    ensures RenderFile(w) + tail != [] && FirstLine(w, (RenderFile(w) + tail)[0])
  {
    hide RenderBlock, HunksFit, PathOk, PrefixesMatch, PrefaceOk, HeaderText, RenameLines;
    if w.preface.NoPreface? {
      BareFile(w, tail);
      BlockStarts(w, tail);
    } else {
      assert (RenderFile(w) + tail)[0] == "diff --git " + HeaderText(w.preface.header);
      assert (RenderFile(w) + tail)[0][0] == 'd';
    }
  }

  lemma {:induction false} NotTaken(w: Written, rest: seq<Written>)
    requires AllWellFormed(rest) && (rest == [] || !IsPure(w) || !rest[0].preface.NoPreface?)
    requires rest != [] ==> RenderFiles(rest) != [] && FirstLine(rest[0], RenderFiles(rest)[0])
    ensures !TakesNext(w, RenderFiles(rest))
  {
    hide RenderFile, WellFormed;
  }

  lemma NoneAmbiguous(w: Written)
    requires IsPure(w)
    ensures !AmbiguousHunks(w.file.hunks)
  {
  }

  // ----- from lines to text

  /** What a line break behind it does not change. */
  predicate IsTextLine(s: string) {
    '\n' !in s && (s == [] || s[|s| - 1] != '\r')
  }

  ghost predicate AllText(lines: seq<string>) {
    forall i :: 0 <= i < |lines| ==> IsTextLine(lines[i])
  }

  function JoinLines(lines: seq<string>): string {
    if lines == [] then "" else lines[0] + ("\n" + JoinLines(lines[1..]))
  }

  lemma {:induction false} SplitFirst(line: string, rest: string)
    requires '\n' !in line
    ensures SplitInclusive(line + ("\n" + rest)) == [line + "\n"] + SplitInclusive(rest)
  {
    var text := line + ("\n" + rest);
    if line == [] {
      assert text[0] == '\n' && text[..1] == line + "\n" && text[1..] == rest;
    } else {
      SplitFirst(line[1..], rest);
      assert text[1..] == line[1..] + ("\n" + rest) && text[..1] == [line[0]];
      assert text[..1] + (line[1..] + "\n") == line + "\n";
    }
  }

  lemma StripText(line: string)
    requires IsTextLine(line)
    ensures StripEol(line + "\n") == line
  {
    assert (line + "\n")[..|line|] == line;
  }

  lemma {:induction false} LinesOfJoined(lines: seq<string>)
    requires AllText(lines)
    ensures Lines(JoinLines(lines)) == lines
  {
    hide SplitInclusive, StripEol;
    if lines != [] {
      LinesOfJoined(lines[1..]);
      SplitFirst(lines[0], JoinLines(lines[1..]));
      StripText(lines[0]);
      var split := SplitInclusive(JoinLines(lines));
      assert split[0] == lines[0] + "\n" && split[1..] == SplitInclusive(JoinLines(lines[1..]));
      assert [lines[0]] + lines[1..] == lines;
    } else {
      SplitNothing();
    }
  }

  lemma SplitNothing()
    ensures SplitInclusive("") == []
  {
  }

  /**
   The text of a rendered patch, with git headers, renames and quoted paths or without, parses to the same
   patch if and only if no removed line starts with `-- ` and no file without a git header stands directly
   behind a pure rename; in the first case it is rejected as a whole, in the second it has fewer files, if any.
   */
  lemma {:induction false} PatchRoundTrip(ws: seq<Written>)
    requires ws != [] && AllWellFormed(ws) && AllText(RenderFiles(ws))
    ensures var r := Patch(JoinLines(RenderFiles(ws)));
            && (r == Success(FilesOf(ws)) <==> !AmbiguousFiles(ws) && !Swallows(ws))
            && (AmbiguousFiles(ws) ==> r == Failure(Rejected))
            && (r != Success(FilesOf(ws)) ==> r == Failure(Rejected) || (r.Success? && |r.value| < |ws|))
  {
    hide Lines, JoinLines, RenderFiles, Files, WellFormed, AmbiguousFiles, Swallows, AllText;
    LinesOfJoined(RenderFiles(ws));
    FilesRoundTrip(ws);
    FileCount(ws);
  }

  lemma {:induction false} FileCount(ws: seq<Written>)
    ensures |FilesOf(ws)| == |ws|
  {
    if ws != [] { FileCount(ws[1..]); }
  }

  /** A patch of one file with the hunk line `\U{E9}` is not rejected. */
  lemma WidePatchPanics()
    ensures Patch("--- a/x\n+++ b/x\n@@ -1 +1 @@\n\U{E9}\n") == Failure(Panicked)
  {
    hide Files;
    var lines := ["--- a/x", "+++ b/x", "@@ -1 +1 @@", "\U{E9}"];
    WideFilesPanic();
    LinesOfJoined(lines);
    JoinedExample();
  }

  lemma {:induction false} JoinedExample()
    ensures JoinLines(["--- a/x", "+++ b/x", "@@ -1 +1 @@", "\U{E9}"]) == "--- a/x\n+++ b/x\n@@ -1 +1 @@\n\U{E9}\n"
  {
    hide JoinLines;
    JoinFour("--- a/x", "+++ b/x", "@@ -1 +1 @@", "\U{E9}");
    assert "--- a/x" + ("\n" + ("+++ b/x" + ("\n" + ("@@ -1 +1 @@" + ("\n" + ("\U{E9}" + "\n"))))))
        == "--- a/x\n+++ b/x\n@@ -1 +1 @@\n\U{E9}\n";
  }

  lemma {:induction false} JoinFour(a: string, b: string, c: string, d: string)
    ensures JoinLines([a, b, c, d]) == a + ("\n" + (b + ("\n" + (c + ("\n" + (d + "\n"))))))
  {
    assert [a, b, c, d][1..] == [b, c, d] && [b, c, d][1..] == [c, d] && [c, d][1..] == [d] && [d][1..] == [];
    assert JoinLines([d]) == d + "\n";
    assert JoinLines([c, d]) == c + ("\n" + JoinLines([d]));
    assert JoinLines([b, c, d]) == b + ("\n" + JoinLines([c, d]));
  }

  lemma WideFilesPanic()
    ensures Files(["--- a/x", "+++ b/x", "@@ -1 +1 @@", "\U{E9}"]) == Failure(Panicked)
  {
    hide ParsePath, HunkAt, IsBlank;
    var lines := ["--- a/x", "+++ b/x", "@@ -1 +1 @@", "\U{E9}"];
    PathLineRoundTrip("a/x", "--- ", Bare);
    PathLineRoundTrip("b/x", "+++ ", Bare);
    StartsFileKind(lines[0]);
    WideLinePanics();
    assert lines[2..] == ["@@ -1 +1 @@", "\U{E9}"];
    AtLineKind(lines[2]);
    assert FileHunks(lines[2..]) == Failure(Panicked);
    assert "--- " + "a/x" == "--- a/x" && "+++ " + "b/x" == "+++ b/x";
    assert BlockPaths(lines) == Some(Paths("a/x", "b/x"));
    assert !("diff --git " <= lines[0]) by { assert lines[0][0] == '-'; }
    assert BlockAt(lines) == UnifiedBlock(lines, None);
  }
}
