/** Multi-file patches in unified diff form: parsed, rendered, and when the one undoes the other. */
module PatchParsing {
  import opened Wrappers
  import opened Text
  import opened Decimals
  import opened Whitespace
  import opened GitQuoting
  import opened DiffHeaders
  import opened HunkParsing

  datatype FilePatch = FilePatch(oldPath: string, newPath: string, hunks: seq<Hunk>)

  // ----- lines

  /** A line without its LF or CRLF; a CR with no LF behind it stays. */
  function StripEol(line: string): string {
    if line == [] || line[|line| - 1] != '\n' then line
    else if |line| >= 2 && line[|line| - 2] == '\r' then line[..|line| - 2]
    else line[..|line| - 1]
  }

  function StripAll(lines: seq<string>): seq<string> {
    if lines == [] then [] else [StripEol(lines[0])] + StripAll(lines[1..])
  }

  /** `str::lines`. */
  function Lines(text: string): seq<string> {
    StripAll(SplitInclusive(text))
  }

  predicate IsBlank(line: string) {
    Trim(line) == []
  }

  /** `is_allowed_diff_metadata`. */
  predicate IsMetadata(line: string) {
    || "diff --git " <= line || "index " <= line || "new file mode " <= line || "deleted file mode " <= line
    || "similarity index " <= line || "rename from " <= line || "rename to " <= line
  }

  /** A line that starts the next file. */
  predicate StartsFile(line: string) {
    "diff --git " <= line || "--- " <= line
  }

  // ----- paths

  /** `parse_diff_path`. */
  function ParsePath(line: string, prefix: string): Option<string> {
    if !(prefix <= line) then None
    else
      var rest := TrimStart(line[|prefix|..]);
      if rest == [] then None
      else if rest[0] == '"' then
        var token := ParseDiffToken(rest);
        if token.None? then None else Some(token.value.text)
      else
        var split := SplitOnce(rest, "\t");
        if split.Some? then
          var token := TrimEnd(split.value.left);
          if token == [] then None else Some(token)
        else
          var remaining := Trim(rest[TokenEnd(rest)..]);
          if remaining != [] && !StartsWithDate(remaining) then None else Some(rest[..TokenEnd(rest)])
  }

  /** `should_strip_git_diff_prefixes`. */
  predicate ShouldStrip(oldPath: string, newPath: string) {
    (oldPath == "/dev/null" || "a/" <= oldPath) && (newPath == "/dev/null" || "b/" <= newPath)
  }

  /** `normalize_diff_path`. */
  function Normalize(path: string): string {
    if path != "/dev/null" && ("a/" <= path || "b/" <= path) then path[2..] else path
  }

  // ----- hunks of a file

  datatype ParsedHunks = ParsedHunks(hunks: seq<Hunk>, rest: seq<string>)

  predicate AllConsistent(hunks: seq<Hunk>) {
    forall i :: 0 <= i < |hunks| ==> Consistent(hunks[i])
  }

  /** The hunks that `lines` start with, up to the next file. */
  function FileHunks(lines: seq<string>): (r: Result<ParsedHunks, Fault>)
    ensures r.Success? ==> |r.value.rest| <= |lines|
    decreases |lines|
  {
    if lines == [] then Success(ParsedHunks([], []))
    else if IsBlank(lines[0]) then FileHunks(lines[1..])
    else if StartsFile(lines[0]) then Success(ParsedHunks([], lines))
    else if IsMetadata(lines[0]) then FileHunks(lines[1..])
    else if !("@@" <= lines[0]) then Failure(Rejected)
    else
      var first := HunkAt(lines);
      if first.Failure? then Failure(first.error)
      else
        var more := FileHunks(first.value.rest);
        if more.Failure? then more else Success(ParsedHunks([first.value.hunk] + more.value.hunks, more.value.rest))
  }

  // ----- files

  datatype ParsedFile = ParsedFile(file: FilePatch, rest: seq<string>)

  /** An unchanged path needs a hunk. */
  predicate Acceptable(f: FilePatch) {
    f.hunks != [] || f.oldPath != f.newPath || f.oldPath == "/dev/null"
  }

  /** `parse_unified_file_block`, on the remaining lines. */
  function UnifiedBlock(lines: seq<string>, strip: Option<bool>): (r: Result<ParsedFile, Fault>)
    ensures r.Success? ==> |r.value.rest| < |lines|
  {
    var paths := BlockPaths(lines);
    if paths.None? then Failure(Rejected)
    else
      var hunks := FileHunks(lines[2..]);
      if hunks.Failure? then Failure(hunks.error)
      else
        var earlier, later := paths.value.before, paths.value.after;
        var stripped := if strip.Some? then strip.value else ShouldStrip(earlier, later);
        var f := FilePatch(if stripped then Normalize(earlier) else earlier,
                           if stripped then Normalize(later) else later,
                           hunks.value.hunks);
        if Acceptable(f) then Success(ParsedFile(f, hunks.value.rest)) else Failure(Rejected)
  }

  /** The paths of the header pair that `lines` start with. */
  function BlockPaths(lines: seq<string>): (r: Option<Paths>)
    ensures r.Some? ==> |lines| >= 2
  {
    if |lines| < 2 || !("--- " <= lines[0]) || !("+++ " <= lines[1]) then None
    else
      var earlier, later := ParsePath(lines[0], "--- "), ParsePath(lines[1], "+++ ");
      if earlier.None? || later.None? then None else Some(Paths(earlier.value, later.value))
  }

  /** The header's paths if they can be told apart; an error if they cannot be and a quote is to blame. */
  ghost function HeaderPaths(line: string): Result<Option<Paths>, ()>
    requires "diff --git " <= line
  {
    if GitPaths(TrimLineEnd(line[11..])).Some? then Success(GitPaths(TrimLineEnd(line[11..])))
    else LooseHeaderPaths(TrimStart(line[11..]))
  }

  function LooseHeaderPaths(rest: string): Result<Option<Paths>, ()> {
    var earlier := ParseDiffToken(rest);
    if earlier.None? then Failure(())
    else
      var after := TrimStart(earlier.value.remaining);
      var later := ParseDiffToken(after);
      if later.None? then Failure(())
      else if IsBlank(later.value.remaining) then Success(Some(Paths(earlier.value.text, later.value.text)))
      else if "\"" <= rest || "\"" <= after then Failure(())
      else Success(None)
  }

  /** `parse_rename_path`. */
  function RenamePath(input: string): Option<string> {
    var rest := Trim(input);
    if rest == [] then None
    else if rest[0] == '"' then
      var token := ParseDiffToken(rest);
      if token.None? || !IsBlank(token.value.remaining) then None else Some(token.value.text)
    else Some(rest)
  }

  datatype Renames = Renames(from: Option<string>, to: Option<string>)

  datatype Metadata = Metadata(renames: Renames, rest: seq<string>)

  function NoteRename(line: string, renames: Renames): Option<Renames> {
    if "rename from " <= line then
      var path := RenamePath(line[12..]);
      if path.None? then None else Some(renames.(from := path))
    else if "rename to " <= line then
      var path := RenamePath(line[10..]);
      if path.None? then None else Some(renames.(to := path))
    else Some(renames)
  }

  /** The lines between a git header and what it heads. */
  function ScanMetadata(lines: seq<string>, renames: Renames): (r: Option<Metadata>)
    ensures r.Some? ==> |r.value.rest| <= |lines|
    decreases |lines|
  {
    if lines == [] || StartsFile(lines[0]) then Some(Metadata(renames, lines))
    else
      var noted := NoteRename(lines[0], renames);
      if noted.None? then None else ScanMetadata(lines[1..], noted.value)
  }

  /** Paths known so far, whether prefixes are to be stripped, and whether that has been seen to. */
  datatype Known = Known(paths: Paths, strip: Option<bool>, normalized: bool)

  /** What the header says, corrected by `rename` lines; an error if they contradict each other. */
  function Reconcile(header: Option<Paths>, renames: Renames): Option<Known> {
    var known := if header.Some? then Known(header.value, Some(ShouldStrip(header.value.before, header.value.after)),
        false)
                 else Known(Paths("", ""), None, false);
    if renames.from.None? || renames.to.None? || renames.from.value == "" || renames.to.value == "" then Some(known)
    else
      var earlier, later, from, to := known.paths.before, known.paths.after, renames.from.value, renames.to.value;
      if earlier == "" && later == "" then Some(Known(Paths(from, to), known.strip, true))
      else if earlier == from && later == to then Some(Known(Paths(from, to), Some(false), true))
      else if Normalize(earlier) == from && Normalize(later) == to then Some(Known(Paths(from, to), Some(true), true))
      else if earlier == "" || later == "" then Some(Known(Paths(from, to), known.strip, true))
      else None
  }

  /** What stands in front of the file block of a git section: the paths so far, and the lines behind. */
  datatype GitHead = GitHead(known: Known, rest: seq<string>)

  ghost function GitHeadOf(lines: seq<string>): (r: Option<GitHead>)
    requires lines != [] && "diff --git " <= lines[0]
    ensures r.Some? ==> |r.value.rest| < |lines|
  {
    var header, metadata := HeaderPaths(lines[0]), ScanMetadata(lines[1..], Renames(None, None));
    if header.Failure? || metadata.None? then None
    else
      var known := Reconcile(header.value, metadata.value.renames);
      if known.None? then None else Some(GitHead(known.value, metadata.value.rest))
  }

  /** `parse_git_file_block`, on the remaining lines. */
  ghost function GitBlock(lines: seq<string>): (r: Result<ParsedFile, Fault>)
    requires lines != [] && "diff --git " <= lines[0]
    ensures r.Success? ==> |r.value.rest| < |lines|
  {
    var head := GitHeadOf(lines);
    if head.None? then Failure(Rejected) else GitFile(head.value.known, head.value.rest)
  }

  function GitFile(known: Known, rest: seq<string>): (r: Result<ParsedFile, Fault>)
    ensures r.Success? ==> |r.value.rest| <= |rest|
  {
    if rest != [] && "--- " <= rest[0] then
      var block := UnifiedBlock(rest, known.strip);
      if block.Success? && (block.value.file.oldPath == "" || block.value.file.newPath == "") then Failure(Rejected)
      else block
    else if known.paths.before == "" || known.paths.after == "" then Failure(Rejected)
    else
      var strip := !known.normalized && (known.strip.None? || known.strip.value);
      var f := FilePatch(if strip then Normalize(known.paths.before) else known.paths.before,
                         if strip then Normalize(known.paths.after) else known.paths.after, []);
      if Acceptable(f) then Success(ParsedFile(f, rest)) else Failure(Rejected)
  }

  /** Hunks with the lines they state, and a change: a hunk, another path, or a file that is missing on both sides. */
  predicate IsSound(f: FilePatch) {
    AllConsistent(f.hunks) && (f.hunks != [] || f.oldPath != f.newPath || f.oldPath == "/dev/null")
  }

  ghost predicate FilesConsistent(files: seq<FilePatch>) {
    forall i :: 0 <= i < |files| ==> IsSound(files[i])
  }

  /** The file block that `lines` start with, if they start with one. */
  ghost function BlockAt(lines: seq<string>): (r: Result<ParsedFile, Fault>)
    requires lines != []
    ensures r.Success? ==> |r.value.rest| < |lines|
  {
    if "diff --git " <= lines[0] then GitBlock(lines) else UnifiedBlock(lines, None)
  }

  /** All files of a patch. */
  ghost function Files(lines: seq<string>): (r: Result<seq<FilePatch>, Fault>)
    decreases |lines|
  {
    if lines == [] then Success([])
    else if IsBlank(lines[0]) || (IsMetadata(lines[0]) && !StartsFile(lines[0])) then Files(lines[1..])
    else if !StartsFile(lines[0]) then Failure(Rejected)
    else
      var first := BlockAt(lines);
      if first.Failure? then Failure(first.error)
      else
        var more := Files(first.value.rest);
        if more.Failure? then more else Success([first.value.file] + more.value)
  }

  ghost function Patch(diff: string): Result<seq<FilePatch>, Fault> {
    var files := Files(Lines(diff));
    if files.Success? && files.value == [] then Failure(Rejected) else files
  }

  // ----- accepted hunks are consistent

  lemma {:induction false} HunksConsistent(lines: seq<string>)
    requires FileHunks(lines).Success?
    ensures AllConsistent(FileHunks(lines).value.hunks)
    decreases |lines|
  {
    hide HunkAt, IsBlank, IsMetadata, StartsFile, Consistent;
    if lines != [] {
      if IsBlank(lines[0]) || (!StartsFile(lines[0]) && IsMetadata(lines[0])) {
        HunksConsistent(lines[1..]);
      } else if !StartsFile(lines[0]) {
        HunksConsistent(HunkAt(lines).value.rest);
      }
    }
  }

  lemma BlockConsistent(lines: seq<string>, strip: Option<bool>)
    requires UnifiedBlock(lines, strip).Success?
    ensures IsSound(UnifiedBlock(lines, strip).value.file)
  {
    hide ParsePath, FileHunks, Normalize, Consistent;
    HunksConsistent(lines[2..]);
  }

  lemma GitBlockConsistent(lines: seq<string>)
    requires lines != [] && "diff --git " <= lines[0] && GitBlock(lines).Success?
    ensures IsSound(GitBlock(lines).value.file)
  {
    hide GitHeadOf, UnifiedBlock, Normalize, Consistent;
    var head := GitHeadOf(lines).value;
    if head.rest != [] && "--- " <= head.rest[0] { BlockConsistent(head.rest, head.known.strip); }
  }

  /** Every hunk of every accepted patch has exactly the lines its header states, and every file of it a change. */
  lemma {:induction false} PatchConsistent(lines: seq<string>)
    requires Files(lines).Success?
    ensures FilesConsistent(Files(lines).value)
    decreases |lines|
  {
    hide GitBlock, UnifiedBlock, IsBlank, IsMetadata, StartsFile, IsSound;
    if lines != [] {
      if IsBlank(lines[0]) || (IsMetadata(lines[0]) && !StartsFile(lines[0])) {
        PatchConsistent(lines[1..]);
      } else {
        if "diff --git " <= lines[0] { GitBlockConsistent(lines); } else { BlockConsistent(lines, None); }
        PatchConsistent(BlockAt(lines).value.rest);
      }
    }
  }

  // ----- when the program stops

  predicate HunkDue(line: string) {
    !IsBlank(line) && !StartsFile(line) && !IsMetadata(line)
  }

  /** Reading hunks from `lines` on, the parser comes to the hunk that starts the lines `h`. */
  ghost predicate ReachesHunk(lines: seq<string>, h: seq<string>)
    decreases |lines|
  {
    lines != [] &&
    if IsBlank(lines[0]) || (!StartsFile(lines[0]) && IsMetadata(lines[0])) then ReachesHunk(lines[1..], h)
    else !StartsFile(lines[0]) && "@@" <= lines[0]
         && (h == lines || (HunkAt(lines).Success? && ReachesHunk(HunkAt(lines).value.rest, h)))
  }

  ghost predicate BlockReaches(lines: seq<string>, h: seq<string>) {
    BlockPaths(lines).Some? && ReachesHunk(lines[2..], h)
  }

  /** The parser comes to that hunk when it reads a whole patch. */
  ghost predicate Reaches(lines: seq<string>, h: seq<string>)
    decreases |lines|
  {
    lines != [] &&
    if IsBlank(lines[0]) || (IsMetadata(lines[0]) && !StartsFile(lines[0])) then Reaches(lines[1..], h)
    else StartsFile(lines[0])
         && (FileReaches(lines, h) || (BlockAt(lines).Success? && Reaches(BlockAt(lines).value.rest, h)))
  }

  ghost predicate FileReaches(lines: seq<string>, h: seq<string>)
    requires lines != []
  {
    if "diff --git " <= lines[0] then GitHeadOf(lines).Some? && BlockReaches(GitHeadOf(lines).value.rest, h)
    else BlockReaches(lines, h)
  }

  lemma {:induction false} HunksPanicIff(lines: seq<string>)
    ensures FileHunks(lines) == Failure(Panicked) <==> exists h :: ReachesHunk(lines, h) && PanickingHunk(h)
    decreases |lines|
  {
    hide HunkAt, IsBlank, IsMetadata, StartsFile, PanickingHunk;
    if lines != [] {
      if IsBlank(lines[0]) || (!StartsFile(lines[0]) && IsMetadata(lines[0])) {
        HunksPanicIff(lines[1..]);
      } else if !StartsFile(lines[0]) && "@@" <= lines[0] {
        HunkPanicsIff(lines);
        if HunkAt(lines).Success? {
          HunksPanicIff(HunkAt(lines).value.rest);
          ReachStep(lines);
        } else {
          assert ReachesHunk(lines, lines);
        }
      }
    }
  }

  lemma {:induction false} ReachStep(lines: seq<string>)
    requires lines != [] && HunkDue(lines[0]) && "@@" <= lines[0] && HunkAt(lines).Success?
    ensures forall h :: ReachesHunk(lines, h) <==> h == lines || ReachesHunk(HunkAt(lines).value.rest, h)
  {
    hide HunkAt, IsBlank, IsMetadata, StartsFile;
  }

  lemma {:induction false} BlockPanicsIff(lines: seq<string>, strip: Option<bool>)
    ensures UnifiedBlock(lines, strip) == Failure(Panicked) <==> exists h :: BlockReaches(lines, h) && PanickingHunk(h)
  {
    hide FileHunks, BlockPaths, Normalize, ReachesHunk, PanickingHunk;
    if BlockPaths(lines).Some? { HunksPanicIff(lines[2..]); }
  }

  lemma {:induction false} FilePanicsIff(lines: seq<string>)
    requires lines != []
    ensures BlockAt(lines) == Failure(Panicked) <==> exists h :: FileReaches(lines, h) && PanickingHunk(h)
  {
    hide UnifiedBlock, BlockReaches, GitHeadOf, Normalize, PanickingHunk;
    if "diff --git " <= lines[0] {
      if GitHeadOf(lines).Some? {
        var head := GitHeadOf(lines).value;
        BlockPanicsIff(head.rest, head.known.strip);
        NotABlock(head.rest);
      }
    } else {
      BlockPanicsIff(lines, None);
    }
  }

  lemma NotABlock(lines: seq<string>)
    ensures !(lines != [] && "--- " <= lines[0]) ==> forall h :: !BlockReaches(lines, h)
  {
    hide ReachesHunk;
  }

  lemma {:induction false} FilesPanicIff(lines: seq<string>)
    ensures Files(lines) == Failure(Panicked) <==> exists h :: Reaches(lines, h) && PanickingHunk(h)
    decreases |lines|
  {
    hide BlockAt, IsBlank, IsMetadata, StartsFile, FileReaches, PanickingHunk;
    if lines != [] {
      if IsBlank(lines[0]) || (IsMetadata(lines[0]) && !StartsFile(lines[0])) {
        FilesPanicIff(lines[1..]);
      } else if StartsFile(lines[0]) {
        FilePanicsIff(lines);
        if BlockAt(lines).Success? { FilesPanicIff(BlockAt(lines).value.rest); }
      }
    }
  }

  /**
   The parser panics if and only if it comes to a hunk with a readable header whose body meets, behind
   nothing but readable lines, a line whose first character takes more than one byte.
   */
  lemma {:induction false} PatchPanicsIff(diff: string)
    ensures Patch(diff) == Failure(Panicked) <==> exists h :: Reaches(Lines(diff), h) && PanickingHunk(h)
  {
    hide Lines, Files, Reaches, PanickingHunk;
    FilesPanicIff(Lines(diff));
  }

  ghost predicate Within(h: seq<string>, lines: seq<string>) {
    forall x :: x in h ==> x in lines
  }

  lemma {:induction false} BodyWithin(lines: seq<string>)
    ensures ParseBody(lines).Success? ==> Within(ParseBody(lines).value.rest, lines)
  {
    hide EndsBody, NoNewlineNote, ParseLine;
    if lines != [] { BodyWithin(lines[1..]); }
  }

  lemma HunkWithin(lines: seq<string>)
    ensures HunkAt(lines).Success? ==> Within(HunkAt(lines).value.rest, lines)
  {
    hide ParseHeader, ParseBody, Consistent;
    if lines != [] { BodyWithin(lines[1..]); }
  }

  lemma {:induction false} HunksWithin(lines: seq<string>)
    ensures FileHunks(lines).Success? ==> Within(FileHunks(lines).value.rest, lines)
    ensures forall h :: ReachesHunk(lines, h) ==> Within(h, lines)
    decreases |lines|
  {
    hide HunkAt, IsBlank, IsMetadata, StartsFile;
    if lines != [] {
      HunksWithin(lines[1..]);
      HunkWithin(lines);
      if HunkAt(lines).Success? { HunksWithin(HunkAt(lines).value.rest); }
    }
  }

  lemma BlockWithin(lines: seq<string>, strip: Option<bool>)
    ensures UnifiedBlock(lines, strip).Success? ==> Within(UnifiedBlock(lines, strip).value.rest, lines)
    ensures forall h :: BlockReaches(lines, h) ==> Within(h, lines)
  {
    hide FileHunks, BlockPaths, Normalize, ReachesHunk;
    if BlockPaths(lines).Some? { HunksWithin(lines[2..]); }
  }

  lemma {:induction false} MetadataWithin(lines: seq<string>, renames: Renames)
    ensures ScanMetadata(lines, renames).Some? ==> Within(ScanMetadata(lines, renames).value.rest, lines)
    decreases |lines|
  {
    hide StartsFile, NoteRename;
    if lines != [] && NoteRename(lines[0], renames).Some?
      { MetadataWithin(lines[1..], NoteRename(lines[0], renames).value); }
  }

  lemma FileWithin(lines: seq<string>)
    requires lines != []
    ensures BlockAt(lines).Success? ==> Within(BlockAt(lines).value.rest, lines)
    ensures forall h :: FileReaches(lines, h) ==> Within(h, lines)
  {
    hide HeaderPaths, ScanMetadata, Reconcile, UnifiedBlock, BlockReaches, Normalize;
    if "diff --git " <= lines[0] {
      MetadataWithin(lines[1..], Renames(None, None));
      if GitHeadOf(lines).Some? { BlockWithin(GitHeadOf(lines).value.rest, GitHeadOf(lines).value.known.strip); }
    } else {
      BlockWithin(lines, None);
    }
  }

  lemma {:induction false} ReachesWithin(lines: seq<string>, h: seq<string>)
    requires Reaches(lines, h)
    ensures Within(h, lines)
    decreases |lines|
  {
    hide BlockAt, IsBlank, IsMetadata, StartsFile, FileReaches;
    if IsBlank(lines[0]) || (IsMetadata(lines[0]) && !StartsFile(lines[0])) {
      ReachesWithin(lines[1..], h);
    } else {
      FileWithin(lines);
      if !FileReaches(lines, h) { ReachesWithin(BlockAt(lines).value.rest, h); }
    }
  }

  /** A diff none of whose lines starts with such a character is parsed or rejected. */
  lemma {:induction false} NarrowNeverPanics(diff: string)
    requires forall x :: x in Lines(diff) ==> !StartsWide(x)
    ensures Patch(diff) != Failure(Panicked)
  {
    hide Lines, Patch, Reaches, StartsWide;
    PatchPanicsIff(diff);
    forall h | Reaches(Lines(diff), h) ensures !PanickingHunk(h) {
      ReachesWithin(Lines(diff), h);
      NarrowHunk(h);
    }
  }

  lemma NarrowHunk(h: seq<string>)
    requires forall x :: x in h ==> !StartsWide(x)
    ensures !PanickingHunk(h)
  {
    hide StartsWide, ParseHeader, BodyLine;
  }

  // ----- the loops

  function HunksOnto(parsed: seq<Hunk>, more: Result<ParsedHunks, Fault>): Result<ParsedHunks, Fault> {
    if more.Failure? then more else Success(ParsedHunks(parsed + more.value.hunks, more.value.rest))
  }

  lemma FileHunksSkip(lines: seq<string>, i: nat, parsed: seq<Hunk>)
    requires i <= |lines|
    ensures i == |lines| ==> HunksOnto(parsed, FileHunks(lines[i..])) == Success(ParsedHunks(parsed, lines[i..]))
    ensures i < |lines| && IsBlank(lines[i]) ==> FileHunks(lines[i..]) == FileHunks(lines[i + 1..])
    ensures i < |lines| && !IsBlank(lines[i]) && StartsFile(lines[i]) ==>
              HunksOnto(parsed, FileHunks(lines[i..])) == Success(ParsedHunks(parsed, lines[i..]))
    ensures i < |lines| && !IsBlank(lines[i]) && !StartsFile(lines[i]) && IsMetadata(lines[i]) ==>
              FileHunks(lines[i..]) == FileHunks(lines[i + 1..])
  {
    hide IsBlank, StartsFile, IsMetadata, HunkAt;
    assert parsed + [] == parsed;
    if i < |lines| { assert lines[i..][1..] == lines[i + 1..]; }
  }

  lemma FileHunksStep(lines: seq<string>, i: nat, parsed: seq<Hunk>)
    requires i < |lines| && HunkDue(lines[i])
    ensures !("@@" <= lines[i]) ==> HunksOnto(parsed, FileHunks(lines[i..])) == Failure(Rejected)
    ensures "@@" <= lines[i] && HunkAt(lines[i..]).Failure? ==>
              HunksOnto(parsed, FileHunks(lines[i..])) == Failure(HunkAt(lines[i..]).error)
    ensures "@@" <= lines[i] && HunkAt(lines[i..]).Success? ==>
              var first := HunkAt(lines[i..]).value;
              HunksOnto(parsed, FileHunks(lines[i..])) == HunksOnto(parsed + [first.hunk], FileHunks(first.rest))
  {
    hide IsBlank, StartsFile, IsMetadata, HunkAt;
    if "@@" <= lines[i] && HunkAt(lines[i..]).Success? {
      var first := HunkAt(lines[i..]).value;
      var more := FileHunks(first.rest);
      if more.Success? { assert (parsed + [first.hunk]) + more.value.hunks
          == parsed + ([first.hunk] + more.value.hunks); }
    }
  }

  datatype HunksEnd = HunksEnd(hunks: seq<Hunk>, next: nat)

  ghost predicate SameHunks(lines: seq<string>, r: Result<HunksEnd, Fault>, p: Result<ParsedHunks, Fault>) {
    && (r.Failure? <==> p.Failure?) && (r.Failure? ==> r.error == p.error)
    && (r.Success? ==>
          r.value.hunks == p.value.hunks && r.value.next <= |lines| && lines[r.value.next..] == p.value.rest)
  }

  /** The hunk loop of `parse_unified_file_block`. */
  method ParseHunks(lines: seq<string>, start: nat) returns (r: Result<HunksEnd, Fault>)
    requires start <= |lines|
    ensures SameHunks(lines, r, FileHunks(lines[start..]))
    ensures r.Success? ==> start <= r.value.next
  {
    hide FileHunks, IsBlank, StartsFile, IsMetadata, HunkAt, HunksOnto, Consistent;
    var hunks, idx := [], start;
    HunksOntoNothing(FileHunks(lines[start..]));
    while idx < |lines|
      invariant start <= idx <= |lines|
      invariant FileHunks(lines[start..]) == HunksOnto(hunks, FileHunks(lines[idx..]))
    {
      FileHunksSkip(lines, idx, hunks);
      var line := lines[idx];
      if IsBlank(line) {
        idx := idx + 1;
        continue;
      }
      if StartsFile(line) {
        break;
      }
      if IsMetadata(line) {
        idx := idx + 1;
        continue;
      }
      FileHunksStep(lines, idx, hunks);
      if !("@@" <= line) {
        return Failure(Rejected);
      }
      var h := ParseHunk(lines, idx);
      if h.Failure? {
        return Failure(h.error);
      }
      hunks := hunks + [h.value.hunk];
      idx := h.value.next;
    }
    FileHunksSkip(lines, idx, hunks);
    return Success(HunksEnd(hunks, idx));
  }

  lemma HunksOntoNothing(more: Result<ParsedHunks, Fault>)
    ensures HunksOnto([], more) == more
  {
    if more.Success? { assert [] + more.value.hunks == more.value.hunks; }
  }

  datatype FileEnd = FileEnd(file: FilePatch, next: nat)

  ghost predicate SameFile(lines: seq<string>, r: Result<FileEnd, Fault>, p: Result<ParsedFile, Fault>) {
    && (r.Failure? <==> p.Failure?) && (r.Failure? ==> r.error == p.error)
    && (r.Success? ==> r.value.file == p.value.file && r.value.next <= |lines| && lines[r.value.next..] == p.value.rest)
  }

  /** `parse_unified_file_block`. */
  method ParseUnifiedFileBlock(lines: seq<string>, start: nat, strip: Option<bool>) returns (r: Result<FileEnd, Fault>)
    requires start <= |lines|
    ensures SameFile(lines, r, UnifiedBlock(lines[start..], strip))
    ensures r.Success? ==> start < r.value.next
  {
    hide ParsePath, FileHunks, Normalize, ShouldStrip;
    if start + 1 >= |lines| || !("--- " <= lines[start]) || !("+++ " <= lines[start + 1]) {
      return Failure(Rejected);
    }
    assert lines[start..][2..] == lines[start + 2..];
    var earlier := ParsePath(lines[start], "--- ");
    var later := ParsePath(lines[start + 1], "+++ ");
    if earlier.None? || later.None? {
      return Failure(Rejected);
    }
    var hunks := ParseHunks(lines, start + 2);
    if hunks.Failure? {
      return Failure(hunks.error);
    }
    var stripped := if strip.Some? then strip.value else ShouldStrip(earlier.value, later.value);
    var f := FilePatch(if stripped then Normalize(earlier.value) else earlier.value,
                       if stripped then Normalize(later.value) else later.value,
                       hunks.value.hunks);
    return if Acceptable(f) then Success(FileEnd(f, hunks.value.next)) else Failure(Rejected);
  }

  datatype MetadataEnd = MetadataEnd(renames: Renames, next: nat)

  /** The `rename` loop of `parse_git_file_block`. */
  method ParseMetadata(lines: seq<string>, start: nat) returns (r: Option<MetadataEnd>)
    requires start <= |lines|
    ensures var m := ScanMetadata(lines[start..], Renames(None, None));
            && (r.None? <==> m.None?)
            && (r.Some? ==>
                  && r.value.renames == m.value.renames && start <= r.value.next <= |lines|
                  && lines[r.value.next..] == m.value.rest)
  {
    hide StartsFile, NoteRename;
    var renames, idx := Renames(None, None), start;
    while idx < |lines|
      invariant start <= idx <= |lines|
      invariant ScanMetadata(lines[start..], Renames(None, None)) == ScanMetadata(lines[idx..], renames)
    {
      if StartsFile(lines[idx]) {
        break;
      }
      assert lines[idx..][1..] == lines[idx + 1..];
      var noted := NoteRename(lines[idx], renames);
      if noted.None? {
        return None;
      }
      renames := noted.value;
      idx := idx + 1;
    }
    return Some(MetadataEnd(renames, idx));
  }

  /** `parse_diff_git_paths` of the patch parser. */
  method ParseHeaderPaths(line: string) returns (r: Result<Option<Paths>, ()>)
    requires "diff --git " <= line
    ensures r == HeaderPaths(line)
  {
    hide TokenPaths, OnlySplit, TrimLineEnd, LooseHeaderPaths, TrimStart, Trim;
    var paths := ParseSectionPaths(line);
    if paths.Some? {
      return Success(Some(Paths(paths.value[0], paths.value[1])));
    }
    return LooseHeaderPaths(TrimStart(line[11..]));
  }

  /** `parse_git_file_block`. */
  method ParseGitFileBlock(lines: seq<string>, start: nat) returns (r: Result<FileEnd, Fault>)
    requires start < |lines| && "diff --git " <= lines[start]
    ensures SameFile(lines, r, GitBlock(lines[start..]))
    ensures r.Success? ==> start < r.value.next
  {
    hide HeaderPaths, ScanMetadata, Reconcile, UnifiedBlock, Normalize;
    assert lines[start..][1..] == lines[start + 1..];
    var header := ParseHeaderPaths(lines[start]);
    if header.Failure? {
      return Failure(Rejected);
    }
    var metadata := ParseMetadata(lines, start + 1);
    if metadata.None? {
      return Failure(Rejected);
    }
    var known := Reconcile(header.value, metadata.value.renames);
    if known.None? {
      return Failure(Rejected);
    }
    var idx, k := metadata.value.next, known.value;
    if idx < |lines| && "--- " <= lines[idx] {
      var block := ParseUnifiedFileBlock(lines, idx, k.strip);
      if block.Success? && (block.value.file.oldPath == "" || block.value.file.newPath == "") {
        return Failure(Rejected);
      }
      return block;
    }
    if k.paths.before == "" || k.paths.after == "" {
      return Failure(Rejected);
    }
    var strip := !k.normalized && (k.strip.None? || k.strip.value);
    var f := FilePatch(if strip then Normalize(k.paths.before) else k.paths.before,
                       if strip then Normalize(k.paths.after) else k.paths.after, []);
    return if Acceptable(f) then Success(FileEnd(f, idx)) else Failure(Rejected);
  }

  ghost function FilesOnto(parsed: seq<FilePatch>, more: Result<seq<FilePatch>, Fault>): Result<seq<FilePatch>, Fault> {
    if more.Failure? then more else Success(parsed + more.value)
  }

  lemma FilesSkip(lines: seq<string>, i: nat, parsed: seq<FilePatch>)
    requires i <= |lines|
    ensures i == |lines| ==> FilesOnto(parsed, Files(lines[i..])) == Success(parsed)
    ensures i < |lines| && (IsBlank(lines[i]) || (IsMetadata(lines[i]) && !StartsFile(lines[i]))) ==>
              Files(lines[i..]) == Files(lines[i + 1..])
  {
    hide IsBlank, StartsFile, IsMetadata, BlockAt;
    assert parsed + [] == parsed;
    if i < |lines| { assert lines[i..][1..] == lines[i + 1..]; }
  }

  lemma FilesStep(lines: seq<string>, i: nat, parsed: seq<FilePatch>)
    requires i < |lines| && !IsBlank(lines[i]) && (!IsMetadata(lines[i]) || StartsFile(lines[i]))
    ensures !StartsFile(lines[i]) ==> FilesOnto(parsed, Files(lines[i..])) == Failure(Rejected)
    ensures StartsFile(lines[i]) && BlockAt(lines[i..]).Failure? ==>
              FilesOnto(parsed, Files(lines[i..])) == Failure(BlockAt(lines[i..]).error)
    ensures StartsFile(lines[i]) && BlockAt(lines[i..]).Success? ==>
              var first := BlockAt(lines[i..]).value;
              FilesOnto(parsed, Files(lines[i..])) == FilesOnto(parsed + [first.file], Files(first.rest))
  {
    hide IsBlank, StartsFile, IsMetadata, BlockAt;
    if StartsFile(lines[i]) && BlockAt(lines[i..]).Success? {
      var first := BlockAt(lines[i..]).value;
      var more := Files(first.rest);
      if more.Success? { assert (parsed + [first.file]) + more.value == parsed + ([first.file] + more.value); }
    }
  }

  lemma FilesOntoNothing(more: Result<seq<FilePatch>, Fault>)
    ensures FilesOnto([], more) == more
  {
    if more.Success? { assert [] + more.value == more.value; }
  }

  lemma LineKinds(line: string)
    ensures "diff --git " <= line ==> StartsFile(line) && IsMetadata(line)
    ensures StartsFile(line) && !("diff --git " <= line) ==> "--- " <= line && !IsMetadata(line)
    ensures !StartsFile(line) ==> !("--- " <= line)
  {
    if "--- " <= line { assert line[0] == '-'; }
  }

  /** `parse_unified_diff`: a patch, every hunk of which has exactly the lines its header states. */
  method ParseUnifiedDiff(diff: string) returns (r: Result<seq<FilePatch>, Fault>)
    ensures r == Patch(diff)
    ensures r.Success? ==> r.value != [] && FilesConsistent(r.value)
  {
    hide Files, IsBlank, StartsFile, IsMetadata, GitBlock, UnifiedBlock, FilesOnto, FilesConsistent, SplitInclusive;
    hide StripAll;
    var lines := Lines(diff);
    var files, idx := [], 0;
    FilesOntoNothing(Files(lines));
    assert lines[0..] == lines;
    while idx < |lines|
      invariant idx <= |lines|
      invariant Files(lines) == FilesOnto(files, Files(lines[idx..]))
    {
      FilesSkip(lines, idx, files);
      var line := lines[idx];
      LineKinds(line);
      if IsBlank(line) {
        idx := idx + 1;
        continue;
      }
      if IsMetadata(line) && !("diff --git " <= line) {
        idx := idx + 1;
        continue;
      }
      FilesStep(lines, idx, files);
      var block;
      if "diff --git " <= line {
        block := ParseGitFileBlock(lines, idx);
      } else if "--- " <= line {
        block := ParseUnifiedFileBlock(lines, idx, None);
      } else {
        return Failure(Rejected);
      }
      if block.Failure? {
        return Failure(block.error);
      }
      files := files + [block.value.file];
      idx := block.value.next;
    }
    FilesSkip(lines, idx, files);
    if files == [] {
      return Failure(Rejected);
    }
    PatchConsistent(lines);
    return Success(files);
  }
}
