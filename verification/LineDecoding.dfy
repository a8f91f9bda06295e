/**
 The incremental line decoder for streamed responses, with its limit on the size of one line.
 Whether a line is valid UTF-8 is a parameter.
 */
module LineDecoding {
  import opened Wrappers
  import opened ByteStrings

  const LF: byte := 10
  const CR: byte := 13

  function StripCr(line: Bytes): Bytes {
    if line != [] && line[|line| - 1] == CR then line[..|line| - 1] else line
  }

  /** Position of the first newline, or the length. */
  function FirstLf(s: Bytes): (i: nat)
    ensures i <= |s|
    ensures forall k :: 0 <= k < i ==> s[k] != LF
    ensures i < |s| ==> s[i] == LF
  {
    if s == [] || s[0] == LF then 0 else 1 + FirstLf(s[1..])
  }

  /** Complete lines, without their terminators, and the unterminated rest. */
  datatype Lines = Lines(complete: seq<Bytes>, rest: Bytes)

  /** Splitting in one go. */
  function Split(s: Bytes): (r: Lines)
    ensures FirstLf(r.rest) == |r.rest|
    decreases |s|
  {
    var i := FirstLf(s);
    if i == |s| then Lines([], s)
    else
      var tail := Split(s[i + 1..]);
      Lines([StripCr(s[..i])] + tail.complete, tail.rest)
  }

  /** All lines of a finished stream; an unterminated last line counts if it is not empty. */
  function AllLines(s: Bytes): seq<Bytes> {
    var r := Split(s);
    r.complete + if r.rest == [] then [] else [StripCr(r.rest)]
  }

  lemma {:induction false} FirstLfUnique(s: Bytes, i: nat)
    requires i <= |s| && (forall k :: 0 <= k < i ==> s[k] != LF) && (i < |s| ==> s[i] == LF)
    ensures FirstLf(s) == i
  {
  }

  /** Splitting may stop anywhere and continue with the unterminated rest. */
  lemma {:induction false} SplitConcat(a: Bytes, b: Bytes)
    ensures Split(a + b).complete == Split(a).complete + Split(Split(a).rest + b).complete
    ensures Split(a + b).rest == Split(Split(a).rest + b).rest
    decreases |a|
  {
    var i := FirstLf(a);
    if i < |a| {
      FirstLfUnique(a + b, i);
      PrefixParts(a, i, b);
      SplitConcat(a[i + 1..], b);
      SplitAt(a, i);
      SplitAt(a + b, i);
      hide FirstLf, Split, StripCr;
      Assoc(StripCr(a[..i]), Split(a[i + 1..]).complete, Split(Split(a).rest + b).complete);
    } else {
      SplitDone(a);
      hide FirstLf, Split;
      assert [] + Split(a + b).complete == Split(a + b).complete;
    }
  }

  lemma Assoc(x: Bytes, s: seq<Bytes>, t: seq<Bytes>)
    ensures [x] + (s + t) == ([x] + s) + t
  {
  }

  lemma {:induction false} SplitAt(s: Bytes, i: nat)
    requires i == FirstLf(s) < |s|
    ensures Split(s).complete == [StripCr(s[..i])] + Split(s[i + 1..]).complete
    ensures Split(s).rest == Split(s[i + 1..]).rest
  {
  }

  lemma PrefixParts(a: Bytes, i: nat, b: Bytes)
    requires i < |a|
    ensures (a + b)[..i] == a[..i] && (a + b)[i + 1..] == a[i + 1..] + b
  {
  }

  // ----- the size limit

  /** Can `s` be appended to `pending` bytes of a line without any line growing beyond `max`? */
  predicate Fits(pending: nat, s: Bytes, max: nat)
    decreases |s|
  {
    pending <= max && (s == [] || Fits(if s[0] == LF then 0 else pending + 1, s[1..], max))
  }

  /** No line is longer than `max`, carriage return included. */
  predicate NoLongLine(s: Bytes, max: nat)
    decreases |s|
  {
    var i := FirstLf(s);
    i <= max && (i < |s| ==> NoLongLine(s[i + 1..], max))
  }

  function PendingAfter(pending: nat, s: Bytes): nat
    decreases |s|
  {
    if s == [] then pending else PendingAfter(if s[0] == LF then 0 else pending + 1, s[1..])
  }

  lemma {:induction false} FitsConcat(pending: nat, a: Bytes, b: Bytes, max: nat)
    ensures Fits(pending, a + b, max) <==> Fits(pending, a, max) && Fits(PendingAfter(pending, a), b, max)
    decreases |a|
  {
    if a == [] {
      assert a + b == b;
    } else {
      assert (a + b)[1..] == a[1..] + b;
      FitsConcat(if a[0] == LF then 0 else pending + 1, a[1..], b, max);
    }
  }

  /** Prefixing `pending` bytes without a newline. */
  lemma {:induction false} FitsPrefix(p: Bytes, s: Bytes, max: nat)
    requires forall k :: 0 <= k < |p| ==> p[k] != LF
    ensures PendingAfter(0, p) == |p|
    ensures Fits(|p|, s, max) <==> Fits(0, p + s, max)
  {
    PendingOfRun(0, p);
    FitsOfRun(0, p, max);
    FitsConcat(0, p, s, max);
  }

  lemma {:induction false} PendingOfRun(n: nat, p: Bytes)
    requires forall k :: 0 <= k < |p| ==> p[k] != LF
    ensures PendingAfter(n, p) == n + |p|
    decreases |p|
  {
    if p != [] { PendingOfRun(n + 1, p[1..]); }
  }

  lemma {:induction false} FitsOfRun(n: nat, p: Bytes, max: nat)
    requires forall k :: 0 <= k < |p| ==> p[k] != LF
    ensures Fits(n, p, max) <==> n + |p| <= max
    decreases |p|
  {
    if p != [] { FitsOfRun(n + 1, p[1..], max); }
  }

  /** The rest left by splitting is what the counter counts. */
  lemma {:induction false} PendingIsRest(s: Bytes)
    ensures PendingAfter(0, s) == |Split(s).rest|
    decreases |s|
  {
    var i := FirstLf(s);
    PendingOfRun(0, s[..i]);
    PendingConcat(0, s[..i], s[i..]);
    assert s[..i] + s[i..] == s;
    if i < |s| {
      assert s[i..][1..] == s[i + 1..];
      PendingIsRest(s[i + 1..]);
    }
  }

  lemma {:induction false} PendingConcat(n: nat, a: Bytes, b: Bytes)
    ensures PendingAfter(n, a + b) == PendingAfter(PendingAfter(n, a), b)
    decreases |a|
  {
    if a == [] {
      assert a + b == b;
    } else {
      assert (a + b)[1..] == a[1..] + b;
      PendingConcat(if a[0] == LF then 0 else n + 1, a[1..], b);
    }
  }

  lemma CutAt(s: Bytes, i: nat)
    requires i < |s|
    ensures s == s[..i] + s[i..] && s[i..][1..] == s[i + 1..] && s[i..][0] == s[i]
  {
  }

  /** Accepting a stream means accepting its first line and the rest. */
  lemma {:induction false} FitsSplit(s: Bytes, max: nat)
    ensures var i := FirstLf(s); Fits(0, s, max) <==> i <= max && (i < |s| ==> Fits(0, s[i + 1..], max))
  {
    var i := FirstLf(s);
    FitsOfRun(0, s[..i], max);
    PendingOfRun(0, s[..i]);
    if i == |s| {
      assert s[..i] == s;
    } else {
      CutAt(s, i);
      FitsConcat(0, s[..i], s[i..], max);
      hide FirstLf, PendingAfter;
    }
  }

  /** The running counter accepts exactly the streams without a long line. */
  lemma {:induction false} FitsIffNoLongLine(s: Bytes, max: nat)
    ensures Fits(0, s, max) <==> NoLongLine(s, max)
    decreases |s|
  {
    hide Fits, FirstLf;
    FitsSplit(s, max);
    if FirstLf(s) < |s| { FitsIffNoLongLine(s[FirstLf(s) + 1..], max); }
  }

  // ----- the decoder

  const MAX_STREAM_FRAME_BYTES: nat := 1024 * 1024

  /** `ensure_max_stream_frame_size`; the error carries the length that was attempted. */
  method EnsureMaxFrame(pending: nat, chunk: Bytes, max: nat) returns (tooLarge: Option<nat>)
    ensures tooLarge.None? <==> Fits(pending, chunk, max)
    ensures tooLarge.Some? ==> tooLarge.value == if pending > max then pending else max + 1
  {
    if pending > max {
      return Some(pending);
    }
    var current: nat := pending;
    for i := 0 to |chunk|
      invariant current <= max
      invariant Fits(pending, chunk, max) <==> Fits(current, chunk[i..], max)
    {
      assert chunk[i..][0] == chunk[i] && chunk[i..][1..] == chunk[i + 1..];
      if chunk[i] == LF {
        current := 0;
      } else {
        current := current + 1;
        if current > max {
          return Some(current);
        }
      }
    }
    return None;
  }

  /** The splitting loop of `push`. */
  method Drain(all: Bytes) returns (lines: seq<Bytes>, buffer: Bytes)
    ensures Lines(lines, buffer) == Split(all)
  {
    lines, buffer := [], all;
    var i := FirstLf(buffer);
    while i < |buffer|
      invariant i == FirstLf(buffer)
      invariant Split(all) == Lines(lines + Split(buffer).complete, Split(buffer).rest)
      decreases |buffer|
    {
      SplitAt(buffer, i);
      var line := buffer[..i];
      if line != [] && line[|line| - 1] == CR {
        line := line[..|line| - 1];
      }
      hide Split, FirstLf;
      SnocCons(lines, line, Split(buffer[i + 1..]).complete);
      buffer, lines := buffer[i + 1..], lines + [line];
      i := FirstLf(buffer);
    }
    SplitDone(buffer);
  }

  lemma SnocCons(s: seq<Bytes>, x: Bytes, t: seq<Bytes>)
    ensures s + ([x] + t) == (s + [x]) + t
  {
  }

  /** Line `k` is `bad`, the first that is not UTF-8. */
  ghost predicate FirstInvalid(lines: seq<Bytes>, isUtf8: Bytes -> bool, k: int, bad: Bytes) {
    0 <= k < |lines| && lines[k] == bad && !isUtf8(bad) && forall j :: 0 <= j < k ==> isUtf8(lines[j])
  }

  /** What is still to be handed out at the end of the stream. */
  function Remaining(lines: seq<Bytes>, buffer: Bytes): seq<Bytes> {
    lines + if buffer == [] then [] else [StripCr(buffer)]
  }

  class LineDecoder {
    const isUtf8: Bytes -> bool
    var buffer: Bytes
    var lines: seq<Bytes>

    ghost predicate Valid()
      reads this
    {
      FirstLf(buffer) == |buffer| && |buffer| <= MAX_STREAM_FRAME_BYTES
    }

    constructor (isUtf8: Bytes -> bool)
      ensures Valid() && buffer == [] && lines == [] && this.isUtf8 == isUtf8
    {
      this.isUtf8 := isUtf8;
      buffer, lines := [], [];
    }

    method Push(chunk: Bytes) returns (tooLarge: Option<nat>)
      requires Valid()
      modifies this
      ensures Valid()
      ensures tooLarge.None? <==> Fits(|old(buffer)|, chunk, MAX_STREAM_FRAME_BYTES)
      ensures tooLarge.Some? ==> buffer == old(buffer) && lines == old(lines)
      ensures tooLarge.None? ==>
                var r := Split(old(buffer) + chunk);
                buffer == r.rest && lines == old(lines) + r.complete
    {
      tooLarge := EnsureMaxFrame(|buffer|, chunk, MAX_STREAM_FRAME_BYTES);
      if tooLarge.Some? {
        return;
      }
      RestFits(buffer, chunk, MAX_STREAM_FRAME_BYTES);
      hide Split;
      var added, rest := Drain(buffer + chunk);
      lines, buffer := lines + added, rest;
    }

    /** `Failure` stands for an invalid UTF-8 error; the line is consumed all the same. */
    method NextLine() returns (r: Result<Option<Bytes>, Bytes>)
      modifies this
      ensures buffer == old(buffer)
      ensures old(lines) == [] ==> r == Success(None) && lines == []
      ensures old(lines) != [] ==> lines == old(lines)[1..]
      ensures old(lines) != [] ==> r == if isUtf8(old(lines)[0]) then Success(Some(old(lines)[0]))
              else Failure(old(lines)[0])
    {
      if lines == [] {
        return Success(None);
      }
      var line := lines[0];
      lines := lines[1..];
      return if isUtf8(line) then Success(Some(line)) else Failure(line);
    }

    /** All remaining lines, the unterminated one last; fails on the first that is not UTF-8. */
    method Finish() returns (r: Result<seq<Bytes>, Bytes>)
      modifies this
      ensures r.Success? ==>
                && r.value == Remaining(old(lines), old(buffer))
                && (forall k :: 0 <= k < |r.value| ==> isUtf8(r.value[k]))
                && lines == [] && buffer == []
      ensures r.Failure? ==>
                exists k ::
                  && FirstInvalid(Remaining(old(lines), old(buffer)), isUtf8, k, r.error)
                  && lines == (if k < |old(lines)| then old(lines)[k + 1..] else [])
                  && buffer == (if k < |old(lines)| then old(buffer) else [])
    {
      ghost var left := Remaining(lines, buffer);
      var out: seq<Bytes> := [];
      while lines != []
        invariant out + lines == old(lines) && buffer == old(buffer)
        invariant forall k :: 0 <= k < |out| ==> isUtf8(out[k])
        decreases |lines|
      {
        var line := lines[0];
        assert left[|out|] == line && forall j :: 0 <= j < |out| ==> left[j] == out[j];
        lines := lines[1..];
        if !isUtf8(line) {
          assert FirstInvalid(left, isUtf8, |out|, line);
          return Failure(line);
        }
        out := out + [line];
      }
      if buffer != [] {
        var line := StripCr(buffer);
        assert left[|out|] == line && forall j :: 0 <= j < |out| ==> left[j] == out[j];
        buffer := [];
        if !isUtf8(line) {
          assert FirstInvalid(left, isUtf8, |out|, line);
          return Failure(line);
        }
        out := out + [line];
      }
      return Success(out);
    }
  }

  lemma {:induction false} SplitDone(s: Bytes)
    requires FirstLf(s) == |s|
    ensures Split(s) == Lines([], s)
  {
  }

  /** What is left over after an accepted chunk is within the limit. */
  lemma {:induction false} RestFits(buffer: Bytes, chunk: Bytes, max: nat)
    requires FirstLf(buffer) == |buffer| && Fits(|buffer|, chunk, max)
    ensures |Split(buffer + chunk).rest| <= max
  {
    FitsPrefix(buffer, chunk, max);
    PendingIsRest(buffer + chunk);
    FitsConcat(0, buffer + chunk, [], max);
    assert (buffer + chunk) + [] == buffer + chunk;
  }

  // ----- any chunking, any interleaving of reads

  datatype Use = Feed(chunk: Bytes) | Next

  datatype Session = Session(out: seq<Bytes>, lines: seq<Bytes>, buffer: Bytes)

  /** The effect of `Push` and `NextLine` on the raw lines. */
  function After(st: Session, op: Use): Session {
    match op
    case Feed(chunk) =>
      var r := Split(st.buffer + chunk);
      st.(lines := st.lines + r.complete, buffer := r.rest)
    case Next =>
      if st.lines == [] then st else st.(out := st.out + [st.lines[0]], lines := st.lines[1..])
  }

  function Replay(ops: seq<Use>): Session {
    if ops == [] then Session([], [], []) else After(Replay(ops[..|ops| - 1]), ops[|ops| - 1])
  }

  /** The bytes fed, as one stream. */
  function Stream(ops: seq<Use>): Bytes {
    if ops == [] then []
    else Stream(ops[..|ops| - 1]) + if ops[|ops| - 1].Feed? then ops[|ops| - 1].chunk else []
  }

  /** Lines read so far, lines queued, and the buffer are the one-shot split of the stream. */
  lemma {:induction false} ChunkingIsIrrelevant(ops: seq<Use>)
    ensures var st := Replay(ops); Lines(st.out + st.lines, st.buffer) == Split(Stream(ops))
  {
    if ops != [] {
      var before, op := ops[..|ops| - 1], ops[|ops| - 1];
      ChunkingIsIrrelevant(before);
      hide Split;
      if op.Feed? {
        FeedStep(Replay(before), Stream(before), op.chunk);
      } else {
        assert Stream(ops) == Stream(before);
        NextStep(Replay(before));
      }
    }
  }

  lemma {:induction false} FeedStep(st: Session, s: Bytes, chunk: Bytes)
    requires Lines(st.out + st.lines, st.buffer) == Split(s)
    ensures var t := After(st, Feed(chunk)); Lines(t.out + t.lines, t.buffer) == Split(s + chunk)
  {
    SplitConcat(s, chunk);
    hide Split;
    assert (st.out + st.lines) + Split(st.buffer + chunk).complete
           == st.out + (st.lines + Split(st.buffer + chunk).complete);
  }

  lemma NextStep(st: Session)
    ensures var t := After(st, Next); t.out + t.lines == st.out + st.lines && t.buffer == st.buffer
  {
  }

  /** What has been read plus what `Finish` returns is the list of all lines of the stream. */
  lemma {:induction false} FinishCompletes(ops: seq<Use>)
    ensures var st := Replay(ops);
      st.out + Remaining(st.lines, st.buffer) == AllLines(Stream(ops))
  {
    ChunkingIsIrrelevant(ops);
    var st := Replay(ops);
    var last: seq<Bytes> := if st.buffer == [] then [] else [StripCr(st.buffer)];
    assert st.out + (st.lines + last) == (st.out + st.lines) + last;
  }

  /** Every chunk of the session was within the limit when it arrived. */
  predicate Accepted(ops: seq<Use>, max: nat) {
    ops == [] ||
    var before, op := ops[..|ops| - 1], ops[|ops| - 1];
    Accepted(before, max) && (op.Feed? ==> Fits(|Replay(before).buffer|, op.chunk, max))
  }

  /** A session is accepted if and only if no line of the whole stream is too long, however it was cut. */
  lemma {:induction false} AcceptanceIsIrrelevant(ops: seq<Use>, max: nat)
    ensures Accepted(ops, max) <==> NoLongLine(Stream(ops), max)
  {
    AcceptedFits(ops, max);
    FitsIffNoLongLine(Stream(ops), max);
  }

  lemma {:induction false} AcceptedFits(ops: seq<Use>, max: nat)
    ensures Accepted(ops, max) <==> Fits(0, Stream(ops), max)
  {
    if ops != [] {
      var before, op := ops[..|ops| - 1], ops[|ops| - 1];
      AcceptedFits(before, max);
      if op.Feed? {
        ChunkingIsIrrelevant(before);
        PendingIsRest(Stream(before));
        FitsConcat(0, Stream(before), op.chunk, max);
      } else {
        assert Stream(ops) == Stream(before);
      }
    }
  }

  // ----- what the lines are

  /** Lines as they are sent, each with LF or CRLF behind it. */
  function Sent(lines: seq<Bytes>, crlf: seq<bool>): Bytes
    requires |crlf| == |lines|
  {
    if lines == [] then [] else lines[0] + ((if crlf[0] then [CR, LF] else [LF]) + Sent(lines[1..], crlf[1..]))
  }

  predicate EndsInCr(line: Bytes) {
    line != [] && line[|line| - 1] == CR
  }

  predicate NoLf(line: Bytes) {
    forall i :: 0 <= i < |line| ==> line[i] != LF
  }

  /** A carriage return at the end of a line survives only in front of CRLF. */
  predicate Survives(line: Bytes, crlf: bool) {
    crlf || !EndsInCr(line)
  }

  lemma {:induction false} SplitFirst(line: Bytes, crlf: bool, more: Bytes)
    requires NoLf(line)
    ensures var r := Split(line + ((if crlf then [CR, LF] else [LF]) + more));
            && r.rest == Split(more).rest && |r.complete| == 1 + |Split(more).complete|
            && r.complete[1..] == Split(more).complete
            && (r.complete[0] == line <==> Survives(line, crlf))
  {
    var sent := if crlf then line + [CR] else line;
    var s := line + ((if crlf then [CR, LF] else [LF]) + more);
    assert s == sent + ([LF] + more);
    assert s[|sent|] == LF && s[..|sent|] == sent && s[|sent| + 1..] == more;
    FirstLfUnique(s, |sent|);
    SplitAt(s, |sent|);
    hide Split, FirstLf;
    assert crlf ==> sent[..|sent| - 1] == line;
    assert EndsInCr(line) ==> |line[..|line| - 1]| < |line|;
  }

  /**
   The lines of a stream are those that were sent, and the rest is what was sent behind them, if and only if
   no line that ends in a carriage return was sent with a bare LF.
   */
  lemma {:induction false} SplitOfSent(lines: seq<Bytes>, crlf: seq<bool>, rest: Bytes)
    requires |crlf| == |lines| && NoLf(rest) && forall i :: 0 <= i < |lines| ==> NoLf(lines[i])
    ensures var r := Split(Sent(lines, crlf) + rest);
            && r.rest == rest && |r.complete| == |lines|
            && (r.complete == lines <==> forall i :: 0 <= i < |lines| ==> Survives(lines[i], crlf[i]))
  {
    hide Split, FirstLf, Survives, NoLf;
    if lines == [] {
      assert Sent(lines, crlf) + rest == rest;
      NoLfLeft(rest);
    } else {
      var more := Sent(lines[1..], crlf[1..]) + rest;
      var ends := if crlf[0] then [CR, LF] else [LF];
      assert Sent(lines, crlf) + rest == lines[0] + (ends + more);
      SplitFirst(lines[0], crlf[0], more);
      SplitOfSent(lines[1..], crlf[1..], rest);
      var r := Split(Sent(lines, crlf) + rest).complete;
      assert r == [r[0]] + r[1..] && lines == [lines[0]] + lines[1..];
    }
  }

  lemma {:induction false} NoLfLeft(rest: Bytes)
    requires NoLf(rest)
    ensures Split(rest) == Lines([], rest)
  {
    FirstLfUnique(rest, |rest|);
    SplitDone(rest);
  }

  /** A last line that is not terminated counts as well, with or without a carriage return behind it. */
  lemma {:induction false} AllLinesOfSent(lines: seq<Bytes>, crlf: seq<bool>, last: Bytes, cr: bool)
    requires |crlf| == |lines| && forall i :: 0 <= i < |lines| ==> NoLf(lines[i]) && Survives(lines[i], crlf[i])
    requires NoLf(last) && Survives(last, cr)
    ensures AllLines(Sent(lines, crlf)) == lines
    ensures last != [] || cr ==> AllLines(Sent(lines, crlf) + (last + if cr then [CR] else [])) == lines + [last]
  {
    hide Split;
    SplitOfSent(lines, crlf, []);
    assert Sent(lines, crlf) + [] == Sent(lines, crlf);
    var rest := last + if cr then [CR] else [];
    SplitOfSent(lines, crlf, rest);
    assert cr ==> rest[..|rest| - 1] == last;
    assert !cr ==> rest == last;
  }

  lemma {:induction false} LongFirst(line: Bytes, crlf: bool, more: Bytes, max: nat)
    requires NoLf(line)
    ensures NoLongLine(line + ((if crlf then [CR, LF] else [LF]) + more), max) <==>
            |line| + (if crlf then 1 else 0) <= max && NoLongLine(more, max)
  {
    var sent := if crlf then line + [CR] else line;
    var s := line + ((if crlf then [CR, LF] else [LF]) + more);
    assert s == sent + ([LF] + more);
    assert s[|sent|] == LF && s[..|sent|] == sent && s[|sent| + 1..] == more;
    FirstLfUnique(s, |sent|);
    hide FirstLf;
  }

  /** The bytes of a line in front of its LF. */
  function SentLength(line: Bytes, crlf: bool): nat {
    |line| + if crlf then 1 else 0
  }

  /** A stream has no long line exactly if no line was sent with more than `max` bytes in front of its LF. */
  lemma {:induction false} LongLinesOfSent(lines: seq<Bytes>, crlf: seq<bool>, rest: Bytes, max: nat)
    requires |crlf| == |lines| && NoLf(rest) && forall i :: 0 <= i < |lines| ==> NoLf(lines[i])
    ensures NoLongLine(Sent(lines, crlf) + rest, max) <==>
            |rest| <= max && forall i :: 0 <= i < |lines| ==> SentLength(lines[i], crlf[i]) <= max
  {
    if lines == [] {
      assert Sent(lines, crlf) + rest == rest;
      FirstLfUnique(rest, |rest|);
    } else {
      hide NoLongLine, NoLf, SentLength;
      var more := Sent(lines[1..], crlf[1..]) + rest;
      assert Sent(lines, crlf) + rest == lines[0] + ((if crlf[0] then [CR, LF] else [LF]) + more);
      LongFirst(lines[0], crlf[0], more, max);
      SentLengthIs(lines[0], crlf[0]);
      LongLinesOfSent(lines[1..], crlf[1..], rest, max);
      assert lines == [lines[0]] + lines[1..] && crlf == [crlf[0]] + crlf[1..];
    }
  }

  lemma SentLengthIs(line: Bytes, crlf: bool)
    ensures SentLength(line, crlf) == |line| + if crlf then 1 else 0
  {
  }
}
