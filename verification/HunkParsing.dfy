/** Hunks of unified diffs: their headers and bodies, parsed and rendered. */
module HunkParsing {
  import opened Wrappers
  import opened Text
  import opened Whitespace
  import opened Decimals

  datatype DiffLine = Context(text: string) | Remove(text: string) | Add(text: string)

  /** How parsing can fail: with an error, or because the program stops. */
  datatype Fault = Rejected | Panicked

  datatype Hunk = Hunk(oldStart: nat, oldLen: nat, newStart: nat, newLen: nat, lines: seq<DiffLine>)

  // ----- pieces of text

  /** `str::split_whitespace`. */
  function Words(s: string): seq<string> {
    var t := TrimStart(s);
    if t == [] then [] else
      assert TokenEnd(t) > 0;
      [t[..TokenEnd(t)]] + Words(t[TokenEnd(t)..])
  }

  lemma {:induction false} WordsStep(blank: string, word: string, tail: string)
    requires AllWhitespace(blank) && word != [] && NoWhitespace(word) && (tail == [] || IsWhitespace(tail[0]))
    ensures Words(blank + (word + tail)) == [word] + Words(tail)
  {
    hide IsWhitespace, TrimStart, TokenEnd;
    TrimStartOf(blank, word + tail);
    TokenEndOf(word, tail);
    assert (word + tail)[..|word|] == word && (word + tail)[|word|..] == tail;
  }

  lemma {:induction false} TwoWords(a: string, b: string)
    requires a != [] && b != [] && NoWhitespace(a) && NoWhitespace(b)
    ensures Words(a + (" " + b)) == [a, b]
  {
    hide IsWhitespace, Words;
    Blanks();
    WordsStep("", a, " " + b);
    WordsStep(" ", b, "");
    WordsEmpty();
    assert "" + (a + (" " + b)) == a + (" " + b) && " " + (b + "") == " " + b;
  }

  lemma WordsEmpty()
    ensures Words("") == []
  {
  }

  // ----- numbers and ranges

  const USIZE_MAX: nat := 0xFFFF_FFFF_FFFF_FFFF

  /** `str::parse::<usize>` on a 64-bit target: an optional plus sign, digits, and no overflow. */
  function ParseUsize(s: string): Option<nat> {
    var digits := if s != [] && s[0] == '+' then s[1..] else s;
    if digits == [] || !AllDigits(digits) || Value(digits) > USIZE_MAX then None else Some(Value(digits))
  }

  datatype Span = Span(start: nat, len: nat)

  /** `parse_hunk_range`. */
  function ParseRange(range: string, prefix: char): Option<Span> {
    if range == [] || range[0] != prefix then None
    else
      var split := SplitOnce(range[1..], ",");
      var start := ParseUsize(if split.Some? then split.value.left else range[1..]);
      var len := ParseUsize(if split.Some? then split.value.right else "1");
      if start.None? || len.None? then None else Some(Span(start.value, len.value))
  }

  /** A range may leave out its length when that is one. */
  function RenderRange(span: Span, short: bool): string
    requires short ==> span.len == 1
  {
    Decimal(span.start) + if short then "" else "," + Decimal(span.len)
  }

  lemma {:induction false} ParseUsizeOfDecimal(n: nat)
    requires n <= USIZE_MAX
    ensures ParseUsize(Decimal(n)) == Some(n)
  {
    hide Decimal, Value;
    ValueOfDecimal(n);
    assert Decimal(n)[0] != '+';
  }

  lemma ParseOne()
    ensures ParseUsize("1") == Some(1)
  {
    assert Value("1") == 10 * Value("") + 1;
  }

  lemma RangeRoundTrip(span: Span, short: bool, prefix: char)
    requires span.start <= USIZE_MAX && span.len <= USIZE_MAX && (short ==> span.len == 1)
    ensures ParseRange([prefix] + RenderRange(span, short), prefix) == Some(span)
  {
    hide Decimal, ParseUsize;
    var s := RenderRange(span, short);
    assert ([prefix] + s)[1..] == s;
    ParseUsizeOfDecimal(span.start);
    if short {
      NotSplit(Decimal(span.start), ",");
      assert s == Decimal(span.start);
      ParseOne();
    } else {
      ParseUsizeOfDecimal(span.len);
      SplitOnceAt(Decimal(span.start), ",", Decimal(span.len));
    }
  }

  // ----- headers

  datatype Ranges = Ranges(before: Span, after: Span)

  /** `trim_start_matches("@@")`. */
  function StripAts(s: string): string {
    if "@@" <= s then StripAts(s[2..]) else s
  }

  /** The header part of `parse_hunk`. */
  function ParseHeader(line: string): Option<Ranges> {
    var header := Trim(line);
    if !("@@" <= header) then None
    else
      var split := SplitOnce(TrimStart(StripAts(header)), "@@");
      if split.None? then None else ParseRanges(Words(Trim(split.value.left)))
  }

  function ParseRanges(parts: seq<string>): Option<Ranges> {
    if |parts| != 2 then None
    else
      var before, after := ParseRange(parts[0], '-'), ParseRange(parts[1], '+');
      if before.None? || after.None? then None else Some(Ranges(before.value, after.value))
  }

  /** How a hunk is written: lengths of one left out or not, and what follows the closing `@@`. */
  datatype Style = Style(shortOld: bool, shortNew: bool, section: string)

  predicate Fits(h: Hunk, style: Style) {
    && h.oldStart <= USIZE_MAX && h.oldLen <= USIZE_MAX && h.newStart <= USIZE_MAX && h.newLen <= USIZE_MAX
    && (style.shortOld ==> h.oldLen == 1) && (style.shortNew ==> h.newLen == 1)
  }

  function RenderRanges(h: Hunk, style: Style): string
    requires Fits(h, style)
  {
    ("-" + RenderRange(Span(h.oldStart, h.oldLen), style.shortOld))
    + (" " + ("+" + RenderRange(Span(h.newStart, h.newLen), style.shortNew)))
  }

  function RenderHeader(h: Hunk, style: Style): string
    requires Fits(h, style)
  {
    ("@@ " + (RenderRanges(h, style) + " @@")) + style.section
  }

  predicate Plain(s: string) {
    forall i :: 0 <= i < |s| ==> IsDigit(s[i]) || s[i] == ','
  }

  lemma RangePlain(span: Span, short: bool)
    requires short ==> span.len == 1
    ensures Plain(RenderRange(span, short))
  {
    hide Decimal;
  }

  lemma PlainNoSpace(s: string)
    requires Plain(s)
    ensures NoWhitespace(s) && '@' !in s
  {
  }

  lemma RangesWords(h: Hunk, style: Style)
    requires Fits(h, style)
    ensures ParseRanges(Words(RenderRanges(h, style)))
            == Some(Ranges(Span(h.oldStart, h.oldLen), Span(h.newStart, h.newLen)))
    ensures '@' !in RenderRanges(h, style)
    ensures var r := RenderRanges(h, style); r != [] && !IsWhitespace(r[0]) && !IsWhitespace(r[|r| - 1])
  {
    hide RenderRange, Words, ParseRange;
    var a, b := RenderRange(Span(h.oldStart, h.oldLen), style.shortOld),
        RenderRange(Span(h.newStart, h.newLen), style.shortNew);
    RangePlain(Span(h.oldStart, h.oldLen), style.shortOld);
    RangePlain(Span(h.newStart, h.newLen), style.shortNew);
    PlainNoSpace(a);
    PlainNoSpace(b);
    TwoWords("-" + a, "+" + b);
    RangeRoundTrip(Span(h.oldStart, h.oldLen), style.shortOld, '-');
    RangeRoundTrip(Span(h.newStart, h.newLen), style.shortNew, '+');
  }

  /** A rendered header is read back, whatever follows its closing `@@`. */
  lemma HeaderRoundTrip(h: Hunk, style: Style)
    requires Fits(h, style)
    ensures ParseHeader(RenderHeader(h, style)) == Some(Ranges(Span(h.oldStart, h.oldLen), Span(h.newStart, h.newLen)))
  {
    hide IsWhitespace, TrimStart, TrimEnd, Trim, Words, ParseRanges, RenderRanges, SplitOnce, StripAts;
    var r := RenderRanges(h, style);
    RangesWords(h, style);
    var section := TrimmedHeader(r, style.section);
    HeaderInner(r, section);
    SplitOnceAt(r + " ", "@@", section);
    TrimmedRanges(r);
    assert "@@" <= Trim(RenderHeader(h, style));
  }

  lemma TrimmedRanges(r: string)
    requires r != [] && !IsWhitespace(r[0]) && !IsWhitespace(r[|r| - 1])
    ensures Trim(r + " ") == r
  {
    hide IsWhitespace, TrimStart, TrimEnd;
    Blanks();
    UntrimmedStart(r + " ");
    TrimEndOf(r, " ");
  }

  lemma {:induction false} HeaderInner(r: string, section: string)
    requires r != [] && !IsWhitespace(r[0])
    ensures TrimStart(StripAts(("@@ " + (r + " @@")) + section)) == (r + " ") + ("@@" + section)
  {
    hide IsWhitespace, TrimStart, StripAts;
    var tail := (r + " ") + ("@@" + section);
    assert ("@@ " + (r + " @@")) + section == "@@" + (" " + tail);
    StripOne(tail);
    Blanks();
    TrimStartOf(" ", tail);
  }

  lemma {:induction false} StripOne(tail: string)
    ensures StripAts("@@" + (" " + tail)) == " " + tail
  {
    var s := "@@" + (" " + tail);
    assert s[..2] == "@@" && s[2..] == " " + tail;
    assert (" " + tail)[0] == ' ';
    assert !("@@" <= " " + tail);
  }

  /** Trimming a header takes nothing but the end of its section. */
  lemma TrimmedHeader(r: string, section: string) returns (trimmed: string)
    ensures Trim(("@@ " + (r + " @@")) + section) == ("@@ " + (r + " @@")) + trimmed
  {
    hide IsWhitespace, TrimStart, TrimEnd;
    var core := "@@ " + (r + " @@");
    var line := core + section;
    AtSign();
    UntrimmedStart(line);
    var t := TrimEnd(line);
    assert line[|core| - 1] == '@';
    assert |t| >= |core| by {
      assert forall i :: |t| <= i < |line| ==> line[|t|..][i - |t|] == line[i];
    }
    trimmed := t[|core|..];
    assert t[..|core|] == core;
  }

  lemma AtSign()
    ensures !IsWhitespace('@')
  {
  }

  // ----- bodies

  /** A line that ends the body of a hunk. */
  predicate EndsBody(line: string) {
    "@@" <= line || "--- " <= line || "diff --git " <= line
  }

  predicate NoNewlineNote(line: string) {
    "\\ No newline at end of file" <= line
  }

  /** The first character takes more than one byte, so that cutting off one byte cuts through it. */
  predicate StartsWide(line: string) {
    line != [] && line[0] as int > 0x7F
  }

  /** The text behind the first byte is taken before the prefix is looked at. */
  function ParseLine(line: string): Result<DiffLine, Fault> {
    if line == [] then Failure(Rejected)
    else if StartsWide(line) then Failure(Panicked)
    else if line[0] == ' ' then Success(Context(line[1..]))
    else if line[0] == '-' then Success(Remove(line[1..]))
    else if line[0] == '+' then Success(Add(line[1..]))
    else Failure(Rejected)
  }

  /** Parsed lines, and the lines after them. */
  datatype Body = Body(lines: seq<DiffLine>, rest: seq<string>)

  function ParseBody(lines: seq<string>): (r: Result<Body, Fault>)
    ensures r.Success? ==> |r.value.rest| <= |lines|
  {
    if lines == [] || EndsBody(lines[0]) then Success(Body([], lines))
    else if NoNewlineNote(lines[0]) then ParseBody(lines[1..])
    else if ParseLine(lines[0]).Failure? then Failure(ParseLine(lines[0]).error)
    else
      var rest := ParseBody(lines[1..]);
      if rest.Failure? then rest else Success(Body([ParseLine(lines[0]).value] + rest.value.lines, rest.value.rest))
  }

  /** Lines on the old side: context and removed. */
  function OldCount(lines: seq<DiffLine>): nat {
    if lines == [] then 0 else (if lines[0].Add? then 0 else 1) + OldCount(lines[1..])
  }

  /** Lines on the new side: context and added. */
  function NewCount(lines: seq<DiffLine>): nat {
    if lines == [] then 0 else (if lines[0].Remove? then 0 else 1) + NewCount(lines[1..])
  }

  predicate Consistent(h: Hunk) {
    h.oldLen == OldCount(h.lines) && h.newLen == NewCount(h.lines)
  }

  datatype ParsedHunk = ParsedHunk(hunk: Hunk, rest: seq<string>)

  /** The hunk that `lines` start with. */
  function HunkAt(lines: seq<string>): (r: Result<ParsedHunk, Fault>)
    ensures r.Success? ==> |r.value.rest| < |lines| && Consistent(r.value.hunk)
  {
    if lines == [] || ParseHeader(lines[0]).None? then Failure(Rejected)
    else
      var ranges := ParseHeader(lines[0]).value;
      var body := ParseBody(lines[1..]);
      if body.Failure? then Failure(body.error)
      else
        var h := Hunk(ranges.before.start, ranges.before.len, ranges.after.start, ranges.after.len, body.value.lines);
        if Consistent(h) then Success(ParsedHunk(h, body.value.rest)) else Failure(Rejected)
  }

  function RenderLine(l: DiffLine): string {
    match l
    case Context(text) => " " + text
    case Remove(text) => "-" + text
    case Add(text) => "+" + text
  }

  function RenderBody(lines: seq<DiffLine>): seq<string> {
    if lines == [] then [] else [RenderLine(lines[0])] + RenderBody(lines[1..])
  }

  /** A removed line that, rendered, looks like the header of the next file. */
  predicate LooksLikeHeader(l: DiffLine) {
    l.Remove? && "-- " <= l.text
  }

  ghost predicate Ambiguous(lines: seq<DiffLine>) {
    exists i :: 0 <= i < |lines| && LooksLikeHeader(lines[i])
  }

  lemma LineRoundTrip(l: DiffLine)
    ensures ParseLine(RenderLine(l)) == Success(l) && !NoNewlineNote(RenderLine(l))
    ensures EndsBody(RenderLine(l)) <==> LooksLikeHeader(l)
  {
    var r := RenderLine(l);
    assert r[1..] == l.text;
    assert r[0] in {' ', '-', '+'};
    assert "--- " == "-" + "-- ";
    if l.Remove? {
      assert "--- " <= r ==> r[..4][1..] == "-- ";
      assert "-- " <= l.text ==> r[..4] == "--- ";
    }
  }

  lemma {:induction false} BodyStep(l: DiffLine, more: seq<string>)
    ensures ParseBody([RenderLine(l)] + more) ==
            if LooksLikeHeader(l) then Success(Body([], [RenderLine(l)] + more))
            else if ParseBody(more).Failure? then ParseBody(more)
            else Success(Body([l] + ParseBody(more).value.lines, ParseBody(more).value.rest))
  {
    hide EndsBody, NoNewlineNote, ParseLine, RenderLine, LooksLikeHeader;
    LineRoundTrip(l);
    assert ([RenderLine(l)] + more)[1..] == more;
  }

  lemma {:induction false} RenderBodyCons(lines: seq<DiffLine>, tail: seq<string>)
    requires lines != []
    ensures RenderBody(lines) + tail == [RenderLine(lines[0])] + (RenderBody(lines[1..]) + tail)
  {
    hide RenderLine;
  }

  /** A rendered body is read back if it does not look like the next file anywhere. */
  lemma {:induction false} BodyRoundTrip(lines: seq<DiffLine>, tail: seq<string>)
    requires (tail == [] || EndsBody(tail[0])) && !Ambiguous(lines)
    ensures ParseBody(RenderBody(lines) + tail) == Success(Body(lines, tail))
  {
    hide EndsBody, RenderLine, LooksLikeHeader;
    if lines == [] {
      assert RenderBody(lines) + tail == tail;
    } else {
      hide ParseBody, RenderBody;
      AmbiguousCons(lines);
      BodyRoundTrip(lines[1..], tail);
      RenderBodyCons(lines, tail);
      BodyStep(lines[0], RenderBody(lines[1..]) + tail);
      assert [lines[0]] + lines[1..] == lines;
    }
  }

  /** Otherwise it is cut short, and lines of the old side are missing. */
  lemma {:induction false} BodyCutShort(lines: seq<DiffLine>, tail: seq<string>)
    requires Ambiguous(lines)
    ensures var r := ParseBody(RenderBody(lines) + tail); r.Success? && OldCount(r.value.lines) < OldCount(lines)
  {
    hide EndsBody, RenderLine, ParseBody, RenderBody;
    AmbiguousCons(lines);
    RenderBodyCons(lines, tail);
    BodyStep(lines[0], RenderBody(lines[1..]) + tail);
    if !LooksLikeHeader(lines[0]) {
      BodyCutShort(lines[1..], tail);
      assert ([lines[0]] + ParseBody(RenderBody(lines[1..]) + tail).value.lines)[1..]
             == ParseBody(RenderBody(lines[1..]) + tail).value.lines;
    }
  }

  lemma AmbiguousCons(lines: seq<DiffLine>)
    requires lines != []
    ensures Ambiguous(lines) <==> LooksLikeHeader(lines[0]) || Ambiguous(lines[1..])
  {
    hide LooksLikeHeader;
    if Ambiguous(lines) && !LooksLikeHeader(lines[0]) {
      var i :| 0 <= i < |lines| && LooksLikeHeader(lines[i]);
      assert lines[1..][i - 1] == lines[i];
    }
    if Ambiguous(lines[1..]) {
      var i :| 0 <= i < |lines[1..]| && LooksLikeHeader(lines[1..][i]);
      assert lines[1..][i] == lines[i + 1];
    }
  }

  /** The note that a file lacks its last newline changes nothing, wherever in the body it stands. */
  lemma {:induction false} NoteSkipped(before: seq<string>, note: string, after: seq<string>)
    requires "\\ No newline at end of file" <= note
    requires forall i :: 0 <= i < |before| ==> !EndsBody(before[i])
    ensures ParseBody(before + ([note] + after)) == ParseBody(before + after)
  {
    hide EndsBody, ParseLine;
    if before == [] {
      assert before + ([note] + after) == [note] + after && before + after == after && ([note] + after)[1..] == after;
      NoteIsNoEnd(note);
    } else {
      NoteSkipped(before[1..], note, after);
      assert (before + ([note] + after))[1..] == before[1..] + ([note] + after);
      assert (before + after)[1..] == before[1..] + after;
    }
  }

  lemma NoteIsNoEnd(note: string)
    requires "\\ No newline at end of file" <= note
    ensures !EndsBody(note) && NoNewlineNote(note)
  {
    assert note[0] == '\\';
  }

  function RenderHunk(h: Hunk, style: Style): seq<string>
    requires Fits(h, style)
  {
    [RenderHeader(h, style)] + RenderBody(h.lines)
  }

  /** A consistent hunk is read back exactly when none of its removed lines looks like a header. */
  lemma HunkRoundTrip(h: Hunk, style: Style, tail: seq<string>)
    requires Fits(h, style) && Consistent(h) && (tail == [] || EndsBody(tail[0]))
    ensures HunkAt(RenderHunk(h, style) + tail) == if Ambiguous(h.lines) then Failure(Rejected)
            else Success(ParsedHunk(h, tail))
  {
    hide ParseHeader, RenderHeader, ParseBody, RenderBody, OldCount, NewCount, EndsBody, Ambiguous;
    var all := RenderHunk(h, style) + tail;
    HeaderRoundTrip(h, style);
    if Ambiguous(h.lines) { BodyCutShort(h.lines, tail); } else { BodyRoundTrip(h.lines, tail); }
    assert all[0] == RenderHeader(h, style) && all[1..] == RenderBody(h.lines) + tail;
  }

  // ----- the loop

  /** What was parsed, put behind what had been parsed before. */
  function Onto(parsed: seq<DiffLine>, body: Result<Body, Fault>): Result<Body, Fault> {
    if body.Failure? then body else Success(Body(parsed + body.value.lines, body.value.rest))
  }

  lemma ParseBodyAt(lines: seq<string>, i: nat, parsed: seq<DiffLine>)
    requires i <= |lines|
    ensures i == |lines| || EndsBody(lines[i]) ==>
            Onto(parsed, ParseBody(lines[i..])) == Success(Body(parsed, lines[i..]))
    ensures i < |lines| && !EndsBody(lines[i]) ==>
              Onto(parsed, ParseBody(lines[i..])) ==
              if NoNewlineNote(lines[i]) then Onto(parsed, ParseBody(lines[i + 1..]))
              else if ParseLine(lines[i]).Failure? then Failure(ParseLine(lines[i]).error)
              else Onto(parsed + [ParseLine(lines[i]).value], ParseBody(lines[i + 1..]))
  {
    hide EndsBody, NoNewlineNote, ParseLine;
    assert parsed + [] == parsed;
    if i < |lines| {
      assert lines[i..][1..] == lines[i + 1..];
      var rest := ParseBody(lines[i + 1..]);
      if ParseLine(lines[i]).Success? && rest.Success? {
        var l := ParseLine(lines[i]).value;
        assert (parsed + [l]) + rest.value.lines == parsed + ([l] + rest.value.lines);
      }
    }
  }

  lemma {:induction false} CountsSnoc(lines: seq<DiffLine>, l: DiffLine)
    ensures OldCount(lines + [l]) == OldCount(lines) + if l.Add? then 0 else 1
    ensures NewCount(lines + [l]) == NewCount(lines) + if l.Remove? then 0 else 1
  {
    if lines != [] {
      assert (lines + [l])[1..] == lines[1..] + [l];
      CountsSnoc(lines[1..], l);
    }
  }

  datatype HunkEnd = HunkEnd(hunk: Hunk, next: nat)

  /** A hunk found at an index, as against one at the front of the remaining lines. */
  ghost predicate SameHunk(lines: seq<string>, r: Result<HunkEnd, Fault>, p: Result<ParsedHunk, Fault>) {
    && (r.Failure? <==> p.Failure?) && (r.Failure? ==> r.error == p.error)
    && (r.Success? ==> r.value.hunk == p.value.hunk && r.value.next <= |lines| && lines[r.value.next..] == p.value.rest)
  }

  /** Lines of a hunk's body that are read without fault: a note, or a context, removed or added line. */
  predicate BodyLine(line: string) {
    !EndsBody(line) && (NoNewlineNote(line) || ParseLine(line).Success?)
  }

  /** Behind nothing but such lines comes one whose first character takes more than one byte. */
  ghost predicate MeetsWide(lines: seq<string>) {
    exists i :: 0 <= i < |lines| && StartsWide(lines[i]) && forall j :: 0 <= j < i ==> BodyLine(lines[j])
  }

  /** That is exactly when a body makes the program stop. */
  lemma {:induction false} BodyPanicsIff(lines: seq<string>)
    ensures ParseBody(lines) == Failure(Panicked) <==> MeetsWide(lines)
  {
    if lines != [] {
      WideLine(lines[0]);
      hide EndsBody, NoNewlineNote, ParseLine, StartsWide, BodyLine;
      MeetsWideCons(lines);
      BodyPanicsIff(lines[1..]);
      BodyLineParts(lines[0]);
    }
  }

  lemma WideLine(line: string)
    ensures StartsWide(line) ==> !EndsBody(line) && !NoNewlineNote(line)
    ensures ParseLine(line) == Failure(Panicked) <==> StartsWide(line)
  {
  }

  lemma BodyLineParts(line: string)
    ensures BodyLine(line) <==> !EndsBody(line) && (NoNewlineNote(line) || ParseLine(line).Success?)
  {
  }

  lemma {:induction false} MeetsWideCons(lines: seq<string>)
    requires lines != []
    ensures MeetsWide(lines) <==> StartsWide(lines[0]) || (BodyLine(lines[0]) && MeetsWide(lines[1..]))
  {
    hide StartsWide, BodyLine;
    var rest := lines[1..];
    if MeetsWide(lines) && !StartsWide(lines[0]) {
      var i :| 0 <= i < |lines| && StartsWide(lines[i]) && forall j :: 0 <= j < i ==> BodyLine(lines[j]);
      assert rest[i - 1] == lines[i];
      assert forall j :: 0 <= j < i - 1 ==> rest[j] == lines[j + 1];
    }
    if BodyLine(lines[0]) && MeetsWide(rest) {
      var i :| 0 <= i < |rest| && StartsWide(rest[i]) && forall j :: 0 <= j < i ==> BodyLine(rest[j]);
      assert lines[i + 1] == rest[i];
      assert forall j :: 1 <= j < i + 1 ==> lines[j] == rest[j - 1];
    }
  }

  /** A hunk with a readable header whose body meets such a line. */
  ghost predicate PanickingHunk(lines: seq<string>) {
    lines != [] && ParseHeader(lines[0]).Some? && MeetsWide(lines[1..])
  }

  lemma HunkPanicsIff(lines: seq<string>)
    ensures HunkAt(lines) == Failure(Panicked) <==> PanickingHunk(lines)
  {
    hide ParseHeader, ParseBody, MeetsWide, Consistent;
    if lines != [] { BodyPanicsIff(lines[1..]); }
  }

  /** The hunk `@@ -1 +1 @@` with the line `\U{E9}` is not rejected. */
  lemma WideLinePanics()
    ensures HunkAt(["@@ -1 +1 @@", "\U{E9}"]) == Failure(Panicked)
  {
    hide ParseHeader, HunkAt, BodyLine;
    var lines := ["@@ -1 +1 @@", "\U{E9}"];
    ShortHeader();
    assert StartsWide(lines[1..][0]);
    HunkPanicsIff(lines);
  }

  lemma ShortHeader()
    ensures ParseHeader("@@ -1 +1 @@").Some?
  {
    hide ParseHeader;
    var h, style := Hunk(1, 1, 1, 1, []), Style(true, true, "");
    assert Decimal(1) == "1";
    hide Decimal;
    assert RenderRange(Span(1, 1), true) == "1";
    assert RenderRanges(h, style) == "-1 +1";
    assert RenderHeader(h, style) == "@@ -1 +1 @@";
    HeaderRoundTrip(h, style);
  }

  /** `parse_hunk`: every accepted hunk has the lengths its header states, and the index moves on. */
  method ParseHunk(lines: seq<string>, headerIdx: nat) returns (r: Result<HunkEnd, Fault>)
    requires headerIdx < |lines|
    ensures SameHunk(lines, r, HunkAt(lines[headerIdx..]))
    ensures r.Success? ==> Consistent(r.value.hunk) && headerIdx < r.value.next <= |lines|
  {
    hide ParseHeader, ParseBody, EndsBody, NoNewlineNote, OldCount, NewCount, Onto;
    var ranges := ParseHeader(lines[headerIdx]);
    assert lines[headerIdx..][1..] == lines[headerIdx + 1..];
    if ranges.None? {
      return Failure(Rejected);
    }
    var parsed, idx, oldCount, newCount := [], headerIdx + 1, 0, 0;
    OntoNothing(ParseBody(lines[idx..]));
    while idx < |lines|
      invariant headerIdx < idx <= |lines|
      invariant ParseBody(lines[headerIdx + 1..]) == Onto(parsed, ParseBody(lines[idx..]))
      invariant oldCount == OldCount(parsed) && newCount == NewCount(parsed)
    {
      ParseBodyAt(lines, idx, parsed);
      var line := lines[idx];
      if EndsBody(line) {
        break;
      }
      if NoNewlineNote(line) {
        idx := idx + 1;
        continue;
      }
      var l := ParseLine(line);
      if l.Failure? {
        return Failure(l.error);
      }
      CountsSnoc(parsed, l.value);
      parsed := parsed + [l.value];
      match l.value {
        case Context(_) => oldCount, newCount := oldCount + 1, newCount + 1;
        case Remove(_) => oldCount := oldCount + 1;
        case Add(_) => newCount := newCount + 1;
      }
      idx := idx + 1;
    }
    ParseBodyAt(lines, idx, parsed);
    var before, after := ranges.value.before, ranges.value.after;
    if oldCount != before.len || newCount != after.len {
      return Failure(Rejected);
    }
    return Success(HunkEnd(Hunk(before.start, before.len, after.start, after.len, parsed), idx));
  }

  lemma OntoNothing(body: Result<Body, Fault>)
    ensures Onto([], body) == body
    ensures OldCount([]) == NewCount([]) == 0
  {
    if body.Success? { assert [] + body.value.lines == body.value.lines; }
  }
}
