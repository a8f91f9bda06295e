/**
 The patch generation loop: ask the model, put its reply through a series of gates, and on a failed
 gate ask again with feedback, a bounded number of times. The model's replies and cancellations are
 arbitrary; JSON decoding, applying, formatting and validating are given functions.
 */
module RepairLoop {
  import opened Wrappers
  import opened ByteStrings
  import opened EditRange
  import opened HunkParsing
  import opened PatchParsing

  datatype ProviderError = ProviderCancelled | ProviderFailed

  /** What attempt number n meets: cancellation at the three kinds of check, and the model's reply. */
  datatype Attempt = Attempt(
    cancelledBeforeCall: bool,
    reply: Result<string, ProviderError>,
    cancelledAfterCall: bool,
    cancelledBeforeApply: bool)

  datatype Position = Position(line: nat, character: nat)

  datatype Range = Range(start: Position, end: Position)

  datatype TextEdit = TextEdit(file: string, range: Range, text: string)

  datatype FileOp = Create(file: string, text: string) | Delete(file: string) | Rename(source: string, target: string)

  datatype StructuredPatch = Json(edits: seq<TextEdit>, ops: seq<FileOp>) | UnifiedDiff(files: seq<FilePatch>)

  /** What a reply holds once it is taken out of its fences: a decoded JSON object, or the text of a diff. */
  datatype Payload = JsonPayload(edits: seq<TextEdit>, ops: seq<FileOp>) | DiffPayload(diff: string) | NoPayload

  /** The one file that may be edited, the range in it, and its byte offsets, where they exist. */
  datatype AllowedRange = AllowedRange(file: string, range: Range, start: Option<nat>, end: Option<nat>)

  datatype Config = Config(
    policyAllows: bool,
    allowRepair: bool,
    maxRepairAttempts: nat,
    editRange: Option<AllowedRange>,
    noNewImports: bool)

  /** The stages that are not part of this model, for applied patches and workspaces. */
  datatype Stages<!A, !W> = Stages(
    payload: string -> Payload,
    safe: StructuredPatch -> bool,
    apply: StructuredPatch -> Option<A>,
    targetBefore: Option<Bytes>,
    targetAfter: A -> Option<Bytes>,
    format: A -> W,
    noNewImports: (W, A) -> bool,
    validate: (W, A) -> bool)

  datatype Gate = Parse | Safety | EditIntent | Apply | EditText | Imports | Validation

  datatype Stop =
    | PolicyRefused
    | Cancelled
    | Provider
    | MissingTarget
    | InvalidRange
    | ParserPanicked
    | GateRefused(gate: Gate)

  datatype Generated<A, W> = Generated(patch: StructuredPatch, applied: A, formatted: W)

  datatype Verdict<A, W> = Pass(result: Generated<A, W>) | Fail(gate: Gate) | Crash | CancelledMidway

  // ----- reading a reply

  ghost function Parsed(payload: Payload): Result<StructuredPatch, Fault> {
    match payload
    case JsonPayload(edits, ops) => if edits == [] && ops == [] then Failure(Rejected) else Success(Json(edits, ops))
    case NoPayload => Failure(Rejected)
    case DiffPayload(diff) =>
      var files := Patch(diff);
      if files.Failure? then Failure(files.error) else Success(UnifiedDiff(files.value))
  }

  /** `parse_structured_patch`, behind the decoding of its payload. */
  method ParsePayload(payload: Payload) returns (r: Result<StructuredPatch, Fault>)
    ensures r == Parsed(payload)
    ensures r.Success? ==>
              match r.value
              case Json(edits, ops) => edits != [] || ops != []
              case UnifiedDiff(files) => files != [] && FilesConsistent(files)
  {
    hide Patch, FilesConsistent;
    match payload {
      case JsonPayload(edits, ops) =>
        return if edits == [] && ops == [] then Failure(Rejected) else Success(Json(edits, ops));
      case NoPayload =>
        return Failure(Rejected);
      case DiffPayload(diff) =>
        var files := ParseUnifiedDiff(diff);
        return if files.Failure? then Failure(files.error) else Success(UnifiedDiff(files.value));
    }
  }

  // ----- what a patch means to edit

  /** `patch_pos_le`. */
  predicate AtOrBefore(a: Position, b: Position) {
    a.line < b.line || (a.line == b.line && a.character <= b.character)
  }

  /** `patch_range_contains_range`. */
  predicate Contains(outer: Range, inner: Range) {
    AtOrBefore(outer.start, inner.start) && AtOrBefore(inner.end, outer.end)
  }

  /** Positions are ordered as the text is read, line by line. */
  lemma PositionOrder(a: Position, b: Position, width: nat)
    requires a.character < width && b.character < width
    ensures AtOrBefore(a, b) <==> a.line * width + a.character <= b.line * width + b.character
  {
    if a.line < b.line {
      LaterLine(a.line, b.line, width);
    } else if b.line < a.line {
      LaterLine(b.line, a.line, width);
    }
  }

  lemma {:induction false} LaterLine(m: nat, n: nat, width: nat)
    requires m < n
    ensures m * width + width <= n * width
  {
    assert n * width == (n - 1) * width + width;
    if m < n - 1 { LaterLine(m, n - 1, width); }
  }

  predicate Within(p: Position, r: Range) {
    AtOrBefore(r.start, p) && AtOrBefore(p, r.end)
  }

  /** One range contains another that is not inverted if and only if it contains all its positions. */
  lemma ContainsIff(outer: Range, inner: Range)
    requires AtOrBefore(inner.start, inner.end)
    ensures Contains(outer, inner) <==> forall p :: Within(p, inner) ==> Within(p, outer)
  {
    if forall p :: Within(p, inner) ==> Within(p, outer) {
      assert Within(inner.start, inner) && Within(inner.end, inner);
    }
  }

  predicate FileInPlace(file: FilePatch, target: string) {
    (if file.newPath != "/dev/null" then file.newPath else file.oldPath) == target && file.oldPath == file.newPath
  }

  /** The patch edits the target file where it is, and a JSON patch only inside the range. */
  ghost predicate Intends(patch: StructuredPatch, allowed: AllowedRange) {
    match patch
    case Json(edits, ops) =>
      ops == [] && forall e :: e in edits ==> e.file == allowed.file && Contains(allowed.range, e.range)
    case UnifiedDiff(files) =>
      forall f :: f in files ==> f.oldPath == allowed.file && f.newPath == allowed.file
  }

  /** `enforce_edit_range_safety_patch_intent`. */
  method CheckIntent(patch: StructuredPatch, allowed: AllowedRange) returns (ok: bool)
    ensures ok <==> Intends(patch, allowed)
  {
    match patch {
      case Json(edits, ops) =>
        if ops != [] {
          return false;
        }
        for i := 0 to |edits|
          invariant forall k :: 0 <= k < i ==> edits[k].file == allowed.file && Contains(allowed.range, edits[k].range)
        {
          if edits[i].file != allowed.file || !Contains(allowed.range, edits[i].range) {
            return false;
          }
        }
      case UnifiedDiff(files) =>
        for i := 0 to |files|
          invariant forall k :: 0 <= k < i ==> files[k].oldPath == allowed.file && files[k].newPath == allowed.file
        {
          if !FileInPlace(files[i], allowed.file) {
            assert files[i] in files;
            return false;
          }
        }
    }
    return true;
  }

  // ----- the gates

  /** The first gate a reply fails, or the result if it passes them all. */
  ghost function Judge<A, W>(cfg: Config, st: Stages<A, W>, reply: string): Verdict<A, W> {
    var parsed := Parsed(st.payload(reply));
    if parsed.Failure? then (if parsed.error.Panicked? then Crash else Fail(Parse))
    else if !st.safe(parsed.value) then Fail(Safety)
    else if cfg.editRange.Some? && !Intends(parsed.value, cfg.editRange.value) then Fail(EditIntent)
    else JudgeApplied(cfg, st, parsed.value)
  }

  ghost function JudgeApplied<A, W>(cfg: Config, st: Stages<A, W>, patch: StructuredPatch): Verdict<A, W> {
    var applied := st.apply(patch);
    if applied.None? then Fail(Apply)
    else if cfg.editRange.Some? && !TextKept(cfg.editRange.value, st.targetBefore, st.targetAfter(applied.value))
    then Fail(EditText)
    else
      var w := st.format(applied.value);
      if cfg.noNewImports && !st.noNewImports(w, applied.value) then Fail(Imports)
      else if !st.validate(w, applied.value) then Fail(Validation)
      else Pass(Generated(patch, applied.value, w))
  }

  /** The target file is there before and after, and differs only as the range check allows. */
  ghost predicate TextKept(range: AllowedRange, before: Option<Bytes>, after: Option<Bytes>) {
    before.Some? && after.Some? && Accepts(before.value, after.value, range.start, range.end)
  }

  /** `g` is what `reply` asks for, and every gate that is switched on let it through. */
  ghost predicate PassedEveryGate<A, W>(cfg: Config, st: Stages<A, W>, reply: string, g: Generated<A, W>) {
    && Parsed(st.payload(reply)) == Success(g.patch) && st.safe(g.patch)
    && st.apply(g.patch) == Some(g.applied)
    && (cfg.editRange.Some? ==>
          Intends(g.patch, cfg.editRange.value)
          && TextKept(cfg.editRange.value, st.targetBefore, st.targetAfter(g.applied)))
    && g.formatted == st.format(g.applied)
    && (cfg.noNewImports ==> st.noNewImports(g.formatted, g.applied))
    && st.validate(g.formatted, g.applied)
  }

  lemma JudgeMeansEveryGate<A, W>(cfg: Config, st: Stages<A, W>, reply: string, g: Generated<A, W>)
    ensures Judge(cfg, st, reply) == Pass(g) <==> PassedEveryGate(cfg, st, reply, g)
  {
  }

  /** `enforce_edit_range_safety_pre_format`. */
  method CheckText(range: AllowedRange, before: Option<Bytes>, after: Option<Bytes>) returns (ok: bool)
    ensures ok <==> TextKept(range, before, after)
  {
    if before.None? || after.None? {
      return false;
    }
    var r := EnforceUnchangedOutside(before.value, after.value, range.start, range.end);
    return r.Success?;
  }

  /** The reply passes the gates in front of applying it. */
  ghost predicate ReachesApply<A, W>(cfg: Config, st: Stages<A, W>, reply: string) {
    var parsed := Parsed(st.payload(reply));
    parsed.Success? && st.safe(parsed.value) && (cfg.editRange.Some? ==> Intends(parsed.value, cfg.editRange.value))
  }

  /** The gates of one attempt, in order, with the cancellation check in front of applying. */
  method RunGates<A, W>(cfg: Config, st: Stages<A, W>, reply: string, cancelled: bool) returns (v: Verdict<A, W>)
    ensures v == if cancelled && ReachesApply(cfg, st, reply) then CancelledMidway else Judge(cfg, st, reply)
  {
    hide Parsed, Intends, TextKept;
    var parsed := ParsePayload(st.payload(reply));
    if parsed.Failure? {
      return if parsed.error.Panicked? then Crash else Fail(Parse);
    }
    if !st.safe(parsed.value) {
      return Fail(Safety);
    }
    if cfg.editRange.Some? {
      var ok := CheckIntent(parsed.value, cfg.editRange.value);
      if !ok {
        return Fail(EditIntent);
      }
    }
    if cancelled {
      return CancelledMidway;
    }
    var applied := st.apply(parsed.value);
    if applied.None? {
      return Fail(Apply);
    }
    if cfg.editRange.Some? {
      var ok := CheckText(cfg.editRange.value, st.targetBefore, st.targetAfter(applied.value));
      if !ok {
        return Fail(EditText);
      }
    }
    var w := st.format(applied.value);
    if cfg.noNewImports && !st.noNewImports(w, applied.value) {
      return Fail(Imports);
    }
    if !st.validate(w, applied.value) {
      return Fail(Validation);
    }
    return Pass(Generated(parsed.value, applied.value, w));
  }

  /** `validate_edit_range_safety_config`. */
  predicate RangeConfigOk(range: AllowedRange) {
    range.start.Some? && range.end.Some? && range.start.value <= range.end.value
  }

  lemma JudgeCases<A, W>(cfg: Config, st: Stages<A, W>, reply: string)
    ensures Judge(cfg, st, reply).Crash? <==> Parsed(st.payload(reply)) == Failure(Panicked)
    ensures Judge(cfg, st, reply).Pass? ==> ReachesApply(cfg, st, reply)
    ensures !Judge(cfg, st, reply).CancelledMidway?
  {
    hide Parsed, Intends;
  }

  /** Attempt `n` got a reply that failed a gate. */
  ghost predicate GateFailed<A, W>(cfg: Config, st: Stages<A, W>, a: Attempt) {
    a.reply.Success? && Judge(cfg, st, a.reply.value).Fail?
  }

  /** Attempt `n` was cut short by cancellation. */
  ghost predicate CutShort(a: Attempt) {
    a.cancelledBeforeCall || a.cancelledAfterCall || a.cancelledBeforeApply || a.reply == Failure(ProviderCancelled)
  }

  /** How many times the model may be asked. */
  function CallLimit(cfg: Config): nat {
    if cfg.allowRepair then cfg.maxRepairAttempts + 1 else 1
  }

  /**
   `generate_patch`. Whatever the model replies, it is asked at most once, and once more for each repair
   that is allowed; a result comes from the last reply, which passed every gate, all earlier replies
   having failed one; and a gate failure is reported only when no further attempt is allowed.
   */
  method GeneratePatch<A, W>(cfg: Config, st: Stages<A, W>, script: nat -> Attempt)
    returns (r: Result<Generated<A, W>, Stop>, calls: nat)
    ensures calls <= if cfg.allowRepair then cfg.maxRepairAttempts + 1 else 1
    ensures forall j :: 0 <= j < calls - 1 ==> GateFailed(cfg, st, script(j))
    ensures r.Success? ==> calls > 0 && !CutShort(script(calls - 1))
    ensures r.Success? ==>
              calls > 0 && script(calls - 1).reply.Success?
              && PassedEveryGate(cfg, st, script(calls - 1).reply.value, r.value)
    ensures r.Success? && cfg.editRange.Some? ==> Intends(r.value.patch, cfg.editRange.value)
    ensures r.Success? && cfg.editRange.Some? ==>
              var before, after := st.targetBefore, st.targetAfter(r.value.applied);
              && before.Some? && after.Some? && RangeConfigOk(cfg.editRange.value)
              && (before.value == after.value
                  || Preserved(before.value, after.value, cfg.editRange.value.start.value,
                      cfg.editRange.value.end.value))
    ensures r.Failure? ==>
              match r.error
              case GateRefused(g) =>
                && calls == (if cfg.allowRepair then cfg.maxRepairAttempts + 1 else 1)
                && script(calls - 1).reply.Success?
                && Judge(cfg, st, script(calls - 1).reply.value) == Fail(g)
              case ParserPanicked =>
                && calls > 0 && script(calls - 1).reply.Success?
                && Parsed(st.payload(script(calls - 1).reply.value)) == Failure(Panicked)
              case Cancelled => (calls > 0 && CutShort(script(calls - 1))) || CutShort(script(calls))
              case Provider => calls > 0 && script(calls - 1).reply == Failure(ProviderFailed)
              case PolicyRefused => calls == 0 && !cfg.policyAllows
              case MissingTarget => calls == 0 && cfg.editRange.Some? && st.targetBefore.None?
              case InvalidRange => calls == 0 && cfg.editRange.Some? && !RangeConfigOk(cfg.editRange.value)
  {
    hide Judge, Parsed, Intends, PassedEveryGate, Preserved, ReachesApply;
    calls := 0;
    if !cfg.policyAllows {
      return Failure(PolicyRefused), calls;
    }
    if cfg.editRange.Some? {
      if st.targetBefore.None? {
        return Failure(MissingTarget), calls;
      }
      if !RangeConfigOk(cfg.editRange.value) {
        return Failure(Stop.InvalidRange), calls;
      }
    }
    var attempt := 0;
    while true
      invariant attempt == calls < CallLimit(cfg)
      invariant forall j :: 0 <= j < calls ==> GateFailed(cfg, st, script(j))
      decreases CallLimit(cfg) - attempt
    {
      var a := script(attempt);
      if a.cancelledBeforeCall {
        return Failure(Cancelled), calls;
      }
      calls := calls + 1;
      if a.reply.Failure? {
        return Failure(if a.reply.error.ProviderCancelled? then Cancelled else Provider), calls;
      }
      if a.cancelledAfterCall {
        return Failure(Cancelled), calls;
      }
      JudgeCases(cfg, st, a.reply.value);
      var v := RunGates(cfg, st, a.reply.value, a.cancelledBeforeApply);
      match v {
        case Crash =>
          return Failure(ParserPanicked), calls;
        case CancelledMidway =>
          return Failure(Cancelled), calls;
        case Pass(result) =>
          JudgeMeansEveryGate(cfg, st, a.reply.value, result);
          PassedKeepsText(cfg, st, a.reply.value, result);
          return Success(result), calls;
        case Fail(gate) =>
          if !(cfg.allowRepair && attempt < cfg.maxRepairAttempts) {
            return Failure(GateRefused(gate)), calls;
          }
          attempt := attempt + 1;
      }
    }
  }

  lemma PassedKeepsText<A, W>(cfg: Config, st: Stages<A, W>, reply: string, result: Generated<A, W>)
    requires PassedEveryGate(cfg, st, reply, result)
    requires cfg.editRange.Some? ==> RangeConfigOk(cfg.editRange.value)
    ensures cfg.editRange.Some? ==> Intends(result.patch, cfg.editRange.value)
    ensures cfg.editRange.Some? ==>
              var before, after := st.targetBefore, st.targetAfter(result.applied);
              && before.Some? && after.Some?
              && (before.value == after.value
                  || Preserved(before.value, after.value, cfg.editRange.value.start.value,
                      cfg.editRange.value.end.value))
  {
    if cfg.editRange.Some? {
      var range, before, after := cfg.editRange.value, st.targetBefore.value, st.targetAfter(result.applied).value;
      if before != after { AcceptsPreserves(before, after, range.start, range.end); }
    }
  }
}
