/**
 Middle truncation of diffs with an omission marker: by whole file sections, by whole hunks, by
 lines, or by characters, in that order of preference.
 */
module Truncation {
  import opened Wrappers
  import opened Text
  import opened Decimals
  import opened Selection
  import opened MarkerLength

  const FALLBACK_INNER := "[diff truncated]"

  /** A marker that does not fit is replaced by a quoted prefix of a shorter one. */
  function Fallback(max: nat): (r: string)
    ensures |r| <= max
    ensures max >= 2 ==>
              && |r| == Min(max, |FALLBACK_INNER| + 2) && r[0] == '"' == r[|r| - 1]
              && r[1..|r| - 1] <= FALLBACK_INNER
    ensures max == 1 ==> r == "\""
  {
    if max == 0 then ""
    else if max == 1 then "\""
    else "\"" + (if |FALLBACK_INNER| <= max - 2 then FALLBACK_INNER else FALLBACK_INNER[..max - 2]) + "\""
  }

  /** `marker_only_within_limit`. */
  function MarkerOnly(marker: string, max: nat): (r: string)
    ensures |r| <= max
  {
    if |marker| <= max then marker else Fallback(max)
  }

  /** What stands for omitted characters, whose number is written as `number`. */
  function Notice(number: string): string {
    "\n\"[diff truncated: omitted " + number + " chars]\"\n"
  }

  ghost predicate CutAt(text: string, out: string, i: nat, j: nat, number: string) {
    i < j <= |text| && IsNumeral(number, j - i) && out == text[..i] + Notice(number) + text[j..]
  }

  /** `out` is `text` with one non-empty stretch replaced by a notice that states its exact length. */
  ghost predicate CutOf(text: string, out: string) {
    exists i, j, number :: CutAt(text, out, i, j, number)
  }

  ghost predicate NoticeTooLong(length: nat, max: nat, number: string) {
    IsNumeral(number, length) && |Notice(number)| > max
  }

  /** Within the limit, and an exact cut unless not even the notice for the whole text fits. */
  ghost predicate Truncated(text: string, max: nat, out: string) {
    |out| <= max && (CutOf(text, out) || (out == Fallback(max) && exists number :: NoticeTooLong(|text|, max, number)))
  }

  lemma {:induction false} MarkerIsNotice(n: nat)
    ensures IsNumeral(Decimal(n), n) && Marker(n) == Notice(Decimal(n)) && |Notice(Decimal(n))| == MarkerLen(n)
  {
    hide Decimal;
    DecimalIsNumeral(n);
  }

  // ----- line lengths

  function Lens(lines: seq<string>): (ls: seq<nat>)
    ensures |ls| == |lines| && forall i :: 0 <= i < |ls| ==> ls[i] == |lines[i]|
  {
    if lines == [] then [] else [|lines[0]|] + Lens(lines[1..])
  }

  lemma {:induction false} HeadIsLength(lines: seq<string>, i: nat)
    requires i <= |lines|
    ensures Head(Lens(lines), i) == |Flatten(lines[..i])|
  {
    if i > 0 {
      HeadIsLength(lines, i - 1);
      assert lines[..i] == lines[..i - 1] + [lines[i - 1]];
      FlattenConcat(lines[..i - 1], [lines[i - 1]]);
      assert Flatten([lines[i - 1]]) == lines[i - 1];
    }
  }

  /** Everything before line `a` is a prefix of the text, everything from line `b` a suffix. */
  lemma {:induction false} LineOffsets(lines: seq<string>, a: nat, b: nat)
    requires a <= b <= |lines|
    ensures var text, i, j := Flatten(lines), Head(Lens(lines), a), Head(Lens(lines), b);
      i <= j <= |text| && Flatten(lines[..a]) == text[..i] && Flatten(lines[b..]) == text[j..]
  {
    HeadIsLength(lines, a);
    HeadIsLength(lines, b);
    HeadMonotone(Lens(lines), a, b);
    SliceCut(lines, a, a);
    SliceCut(lines, b, b);
    FlattenConcat(lines[..a], lines[a..]);
    FlattenConcat(lines[..b], lines[b..]);
  }

  lemma TextCut(text: string, i: nat, j: nat, max: nat)
    requires i < j <= |text| && |text| - (j - i) + MarkerLen(j - i) <= max
    ensures Truncated(text, max, text[..i] + Marker(j - i) + text[j..])
  {
    MarkerIsNotice(j - i);
    hide Marker, MarkerLen, Notice, IsNumeral, Decimal;
    assert CutAt(text, text[..i] + Marker(j - i) + text[j..], i, j, Decimal(j - i));
  }

  /** Replacing lines `a..b` by a marker with their length. */
  lemma {:induction false} LineCut(lines: seq<string>, a: nat, b: nat, omitted: nat, max: nat)
    requires a <= b <= |lines|
    requires omitted > 0 && omitted == Head(Lens(lines), b) - Head(Lens(lines), a)
    requires |Flatten(lines)| - omitted + MarkerLen(omitted) <= max
    ensures Truncated(Flatten(lines), max, Flatten(lines[..a]) + Marker(omitted) + Flatten(lines[b..]))
  {
    hide Marker, MarkerLen, Flatten, Lens, Head, Truncated;
    LineOffsets(lines, a, b);
    TextCut(Flatten(lines), Head(Lens(lines), a), Head(Lens(lines), b), max);
  }

  // ----- by lines

  ghost predicate Positive(ls: seq<nat>) {
    forall i :: 0 <= i < |ls| ==> ls[i] > 0
  }

  /** The marker number settled on is exactly what the budget it leaves makes the selection omit. */
  ghost predicate Settled(ls: seq<nat>, base: nat, total: nat, budget: nat, omitted: nat) {
    exists p: nat, s: nat :: Best(ls, budget, p, s) && base + Kept(ls, p, s) + omitted == total
  }

  ghost predicate Rising(lens: seq<nat>) {
    forall i :: 0 <= i < |lens| - 1 ==> lens[i] < lens[i + 1]
  }

  /** What is left for the pieces once the marker and the always-kept `base` are paid for. */
  function Budget(max: nat, markerLen: nat, base: nat): nat { Minus(Minus(max, markerLen), base) }

  /**
   The marker iteration before it settles: the assumed lengths have grown every round, and (p, s)
   is the selection of the latest finished round.
   */
  ghost predicate Iterating(ls: seq<nat>, base: nat, total: nat, max: nat, lens: seq<nat>, kepts: seq<nat>, p: nat,
      s: nat)
  {
    && Rounds(total, max, lens, kepts)
    && Rising(lens)
    && (kepts != [] ==>
          Best(ls, Budget(max, lens[|kepts| - 1], base), p, s) && kepts[|kepts| - 1] == base + Kept(ls, p, s))
  }

  lemma FirstRound(ls: seq<nat>, base: nat, total: nat, max: nat)
    ensures Iterating(ls, base, total, max, [0], [], 0, 0)
  {
  }

  lemma RisingFiveRounds(total: nat, max: nat, lens: seq<nat>, kepts: seq<nat>)
    requires Rounds(total, max, lens, kepts) && |kepts| >= 5
    ensures !Rising(lens)
  {
    var l, k := lens[..6], kepts[..5];
    forall i | 0 <= i < |k| ensures RoundAt(total, max, l, k, i) { assert RoundAt(total, max, lens, kepts, i); }
    assert l[1] == lens[1] && l[2] == lens[2] && l[3] == lens[3] && l[4] == lens[4] && l[5] == lens[5];
    NoFiveRises(total, max, l, k);
    hide Rounds;
  }

  /** One more round, given how its kept amount compares with the round before. */
  lemma AppendRound(total: nat, max: nat, lens: seq<nat>, kepts: seq<nat>, kept: nat)
    requires Rounds(total, max, lens, kepts)
    requires kept <= total && kept <= Minus(max, lens[|lens| - 1])
    requires kepts != [] && kepts[|kepts| - 1] <= Minus(max, lens[|lens| - 1]) ==> kept == kepts[|kepts| - 1]
    ensures Rounds(total, max, lens + [MarkerLen(total - kept)], kepts + [kept])
  {
    hide MarkerLen, Minus;
    var l, k := lens + [MarkerLen(total - kept)], kepts + [kept];
    forall i | 0 <= i < |k| ensures RoundAt(total, max, l, k, i) {
      if i < |kepts| { assert RoundAt(total, max, lens, kepts, i); }
    }
  }

  /** Keeping less never makes the marker shorter. */
  lemma MarkerMonotone(m: nat, n: nat)
    requires m <= n
    ensures 0 < MarkerLen(m) <= MarkerLen(n)
  {
    DecimalLengthMonotone(m, n);
    hide Decimal;
  }

  /** How two successive rounds of selection compare. */
  lemma SuccessiveBest(ls: seq<nat>, b: nat, p: nat, s: nat, b': nat, p': nat, s': nat)
    requires Best(ls, b, p, s) && Best(ls, b', p', s') && b' <= b
    ensures Kept(ls, p', s') <= Kept(ls, p, s)
    ensures Kept(ls, p, s) <= b' ==> Kept(ls, p', s') == Kept(ls, p, s)
  {
    BestMonotone(ls, b', p', s', b, p, s);
    if Kept(ls, p, s) <= b' {
      BestStable(ls, b, p, s, b');
      BestUnique(ls, b', p, s, p', s');
    }
  }

  lemma {:induction false} KeptAtMostAll(ls: seq<nat>, p: nat, s: nat)
    requires p + s <= |ls|
    ensures Kept(ls, p, s) <= Head(ls, |ls|)
  {
    HeadPlusTail(ls, |ls| - s);
    HeadMonotone(ls, p, |ls| - s);
  }

  lemma {:induction false} NextRound(ls: seq<nat>, base: nat, total: nat, max: nat, lens: seq<nat>, kepts: seq<nat>,
      p: nat, s: nat, p': nat, s': nat)
    requires Iterating(ls, base, total, max, lens, kepts, p, s)
    requires base <= Minus(max, lens[|lens| - 1]) && total == base + Head(ls, |ls|)
    requires Best(ls, Budget(max, lens[|lens| - 1], base), p', s')
    ensures base + Kept(ls, p', s') <= total
    ensures var len := MarkerLen(total - base - Kept(ls, p', s'));
      if len == lens[|lens| - 1]
      then Settled(ls, base, total, Budget(max, len, base), total - base - Kept(ls, p', s'))
      else Iterating(ls, base, total, max, lens + [len], kepts + [base + Kept(ls, p', s')], p', s')
  {
    hide MarkerLen, Minus, Best, Head, Tail, Kept;
    BestFits(ls, Budget(max, lens[|lens| - 1], base), p', s');
    if kepts != [] {
      var n := |kepts|;
      assert RoundAt(total, max, lens, kepts, n - 1);
      CompareRounds(ls, base, total, max, lens[n - 1], lens[n], p, s, p', s');
    }
    BudgetBase(max, lens[|lens| - 1], base);
    hide Rounds, Budget;
    AppendRound(total, max, lens, kepts, base + Kept(ls, p', s'));
  }

  lemma {:induction false} BestFits(ls: seq<nat>, budget: nat, p: nat, s: nat)
    requires Best(ls, budget, p, s)
    ensures p + s <= |ls| && Kept(ls, p, s) <= budget && Kept(ls, p, s) <= Head(ls, |ls|)
  {
    KeptAtMostAll(ls, p, s);
  }

  lemma BudgetBase(max: nat, markerLen: nat, base: nat)
    requires base <= Minus(max, markerLen)
    ensures base + Budget(max, markerLen, base) == Minus(max, markerLen)
  {
  }

  /** The selections of two successive rounds, in which the assumed marker length grew. */
  lemma CompareRounds(ls: seq<nat>, base: nat, total: nat, max: nat, len: nat, len': nat, p: nat, s: nat, p': nat,
      s': nat)
    requires Best(ls, Budget(max, len, base), p, s) && Best(ls, Budget(max, len', base), p', s') && len <= len'
    requires base <= Minus(max, len') && base + Kept(ls, p, s) <= total && base + Kept(ls, p', s') <= total
    requires len' == MarkerLen(total - base - Kept(ls, p, s))
    ensures base + Kept(ls, p, s) <= Minus(max, len') ==> Kept(ls, p', s') == Kept(ls, p, s)
    ensures len' <= MarkerLen(total - base - Kept(ls, p', s'))
  {
    hide MarkerLen, Head, Tail, Best, Minus;
    BestFits(ls, Budget(max, len, base), p, s);
    BestFits(ls, Budget(max, len', base), p', s');
    BudgetAntitone(max, len, len', base);
    BudgetBase(max, len', base);
    hide Budget;
    SuccessiveBest(ls, Budget(max, len, base), p, s, Budget(max, len', base), p', s');
    MarkerMonotone(total - base - Kept(ls, p, s), total - base - Kept(ls, p', s'));
  }

  lemma BudgetAntitone(max: nat, a: nat, b: nat, base: nat)
    requires a <= b
    ensures Budget(max, b, base) <= Budget(max, a, base)
  {
  }

  /** The number `o` is exactly what its own marker makes the selection omit. */
  ghost predicate SettledAt(ls: seq<nat>, base: nat, total: nat, max: nat, o: nat) {
    Settled(ls, base, total, Budget(max, MarkerLen(o), base), o)
  }

  /** Every such number needs a marker at least this long. */
  ghost predicate AtLeast(ls: seq<nat>, base: nat, total: nat, max: nat, len: nat) {
    forall o: nat :: SettledAt(ls, base, total, max, o) ==> len <= MarkerLen(o)
  }

  lemma AtLeastNothing(ls: seq<nat>, base: nat, total: nat, max: nat)
    ensures AtLeast(ls, base, total, max, 0)
  {
  }

  /** A round of the iteration does not pass over a number that would do. */
  lemma RoundStaysBelow(ls: seq<nat>, base: nat, total: nat, max: nat, len: nat, p: nat, s: nat)
    requires AtLeast(ls, base, total, max, len)
    requires Best(ls, Budget(max, len, base), p, s) && base + Kept(ls, p, s) <= total
    ensures AtLeast(ls, base, total, max, MarkerLen(total - base - Kept(ls, p, s)))
  {
    hide MarkerLen, Budget, Kept;
    forall o: nat | SettledAt(ls, base, total, max, o)
      ensures MarkerLen(total - base - Kept(ls, p, s)) <= MarkerLen(o)
    {
      SettledMarker(ls, base, total, max, len, p, s, o);
    }
  }

  lemma SettledMarker(ls: seq<nat>, base: nat, total: nat, max: nat, len: nat, p: nat, s: nat, o: nat)
    requires SettledAt(ls, base, total, max, o) && len <= MarkerLen(o)
    requires Best(ls, Budget(max, len, base), p, s) && base + Kept(ls, p, s) <= total
    ensures MarkerLen(total - base - Kept(ls, p, s)) <= MarkerLen(o)
  {
    hide MarkerLen, Kept;
    BudgetAntitone(max, len, MarkerLen(o), base);
    hide Budget;
    var b := Budget(max, MarkerLen(o), base);
    var p': nat, s': nat :| Best(ls, b, p', s') && base + Kept(ls, p', s') + o == total;
    BestMonotone(ls, b, p', s', Budget(max, len, base), p, s);
    MarkerMonotone(total - base - Kept(ls, p, s), o);
  }

  method LineMarker(ls: seq<nat>, total: nat, max: nat) returns (omitted: nat)
    requires Positive(ls) && total == Head(ls, |ls|)
    ensures SettledAt(ls, 0, total, max, omitted) && AtLeast(ls, 0, total, max, MarkerLen(omitted))
  {
    hide MarkerLen, Head, Tail, Rounds, Rising, AtLeast;
    AtLeastNothing(ls, 0, total, max);
    var markerLen, r, stable := 0, 0, false;
    ghost var lens, kepts: seq<nat>, lastP: nat, lastS: nat := [0], [], 0, 0;
    omitted := 0;
    FirstRound(ls, 0, total, max);
    while r < 8 && !stable
      invariant r <= 8 && |kepts| == r && |lens| == r + 1
      invariant !stable ==> Iterating(ls, 0, total, max, lens, kepts, lastP, lastS) && lens[r] == markerLen
      invariant stable ==> SettledAt(ls, 0, total, max, omitted) && markerLen == MarkerLen(omitted)
      invariant AtLeast(ls, 0, total, max, markerLen)
      decreases 8 - r
    {
      var p, s, kept := SelectPrefixSuffix(ls, Minus(max, markerLen));
      NextRound(ls, 0, total, max, lens, kepts, lastP, lastS, p, s);
      RoundStaysBelow(ls, 0, total, max, markerLen, p, s);
      omitted := Minus(total, kept);
      var nextLen := MarkerLen(omitted);
      stable := nextLen == markerLen;
      markerLen := nextLen;
      lens, kepts, lastP, lastS, r := lens + [nextLen], kepts + [kept], p, s, r + 1;
    }
    if !stable {
      RisingFiveRounds(total, max, lens, kepts);
      assert false;
    }
  }

  /** When the marker leaves no room, it is the marker for the whole text. */
  lemma NothingKept(text: string, max: nat, omitted: nat)
    requires text != [] && omitted == |text|
    requires max <= MarkerLen(omitted)
    ensures Truncated(text, max, MarkerOnly(Marker(omitted), max))
  {
    MarkerIsNotice(omitted);
    hide Marker, MarkerLen, Fallback, Notice, IsNumeral, Decimal;
    if MarkerLen(omitted) <= max {
      assert Marker(omitted) == text[..0] + Marker(omitted) + text[|text|..];
      assert CutAt(text, Marker(omitted), 0, |text|, Decimal(omitted));
    } else {
      assert NoticeTooLong(|text|, max, Decimal(omitted));
    }
  }

  lemma SettledAtZero(ls: seq<nat>, base: nat, total: nat, omitted: nat)
    requires Settled(ls, base, total, 0, omitted)
    ensures omitted + base == total
  {
  }

  lemma SettledKept(ls: seq<nat>, base: nat, total: nat, budget: nat, omitted: nat, p: nat, s: nat)
    requires Settled(ls, base, total, budget, omitted) && Best(ls, budget, p, s)
    ensures base + Kept(ls, p, s) + omitted == total
  {
    var p', s' :| Best(ls, budget, p', s') && base + Kept(ls, p', s') + omitted == total;
    BestUnique(ls, budget, p, s, p', s');
  }

  lemma {:induction false} LinesPositive(text: string)
    ensures Positive(Lens(SplitInclusive(text)))
    ensures Head(Lens(SplitInclusive(text)), |Lens(SplitInclusive(text))|) == |text|
    ensures Flatten(SplitInclusive(text)) == text
  {
    SplitInclusiveFacts(text);
    var lines := SplitInclusive(text);
    HeadIsLength(lines, |lines|);
    assert lines[..|lines|] == lines;
  }

  /** The shortest marker that is right about itself, between the best choice of lines it leaves room for. */
  ghost predicate LinesCutAt(lines: seq<string>, max: nat, out: string, omitted: nat, p: nat, s: nat) {
    var ls, total := Lens(lines), |Flatten(lines)|;
    && SettledAt(ls, 0, total, max, omitted) && AtLeast(ls, 0, total, max, MarkerLen(omitted))
    && if max <= MarkerLen(omitted) then out == MarkerOnly(Marker(omitted), max)
       else
         && Best(ls, max - MarkerLen(omitted), p, s)
         && out == Flatten(lines[..p]) + Marker(omitted) + Flatten(lines[|lines| - s..])
  }

  /** Half of the room in front of the marker, the rest of it behind. */
  ghost predicate CharsCutAt(text: string, max: nat, out: string, omitted: nat, head: nat, tail: nat) {
    && omitted == |text| - Minus(max, MarkerLen(omitted))
    && if max <= MarkerLen(omitted) then out == MarkerOnly(Marker(omitted), max)
       else
         && head + tail + MarkerLen(omitted) == max < |text| && head <= tail <= head + 1
         && out == text[..head] + Marker(omitted) + text[|text| - tail..]
  }

  ghost predicate CutByLines(text: string, max: nat, out: string) {
    if |SplitInclusive(text)| > 1 then exists omitted, p, s :: LinesCutAt(SplitInclusive(text), max, out, omitted, p, s)
    else exists omitted, head, tail :: CharsCutAt(text, max, out, omitted, head, tail)
  }

  /** `truncate_by_lines_with_marker`: exact for texts of any size. */
  method TruncateByLines(text: string, max: nat) returns (out: string)
    requires 1 <= max < |text|
    ensures Truncated(text, max, out)
    ensures CutByLines(text, max, out)
  {
    hide Marker, MarkerLen, SplitInclusive, Lens, Head, Tail, Truncated, AtLeast;
    var lines := SplitInclusive(text);
    LinesPositive(text);
    if |lines| <= 1 {
      out := TruncateByChars(text, max);
      return;
    }
    var ls := Lens(lines);
    var omitted := LineMarker(ls, |text|, max);
    var markerLen := MarkerLen(omitted);
    if max <= markerLen {
      SettledAtZero(ls, 0, |text|, omitted);
      NothingKept(text, max, omitted);
      out := MarkerOnly(Marker(omitted), max);
      assert LinesCutAt(lines, max, out, omitted, 0, 0);
      return;
    }
    var p, s, kept := SelectPrefixSuffix(ls, max - markerLen);
    SettledKept(ls, 0, |text|, max - markerLen, omitted, p, s);
    HeadPlusTail(ls, |ls| - s);
    LineCut(lines, p, |lines| - s, omitted, max);
    out := Flatten(lines[..p]) + Marker(omitted) + Flatten(lines[|lines| - s..]);
    assert LinesCutAt(lines, max, out, omitted, p, s);
  }

  // ----- by characters

  method CharMarker(total: nat, max: nat) returns (omitted: nat)
    requires max < total
    ensures omitted == total - Minus(max, MarkerLen(omitted))
  {
    hide MarkerLen, Rounds, Rising;
    var markerLen, r, stable := 0, 0, false;
    ghost var lens, kepts: seq<nat> := [0], [];
    omitted := total;
    FirstRound([], 0, total, max);
    while r < 8 && !stable
      invariant r <= 8 && |kepts| == r && |lens| == r + 1
      invariant !stable ==> Rounds(total, max, lens, kepts) && Rising(lens) && lens[r] == markerLen
      invariant lens[0] == 0
      invariant !stable && r > 0 ==>
                  kepts[r - 1] == Minus(max, lens[r - 1]) && lens[r] == MarkerLen(total - kepts[r - 1])
      invariant stable ==> omitted == total - Minus(max, MarkerLen(omitted))
      decreases 8 - r
    {
      var available := Minus(max, markerLen);
      omitted := Minus(total, available);
      var nextLen := MarkerLen(omitted);
      CharRound(total, max, lens, kepts);
      AppendRound(total, max, lens, kepts, available);
      stable := nextLen == markerLen;
      markerLen := nextLen;
      lens, kepts, r := lens + [nextLen], kepts + [available], r + 1;
    }
    if !stable {
      RisingFiveRounds(total, max, lens, kepts);
      assert false;
    }
  }

  lemma CharRound(total: nat, max: nat, lens: seq<nat>, kepts: seq<nat>)
    requires max < total && |lens| == |kepts| + 1 && Rising(lens) && lens[0] == 0
    requires kepts != [] ==> kepts[|kepts| - 1] == Minus(max, lens[|kepts| - 1])
    requires kepts != [] ==> lens[|kepts|] == MarkerLen(total - kepts[|kepts| - 1])
    ensures var next := MarkerLen(total - Minus(max, lens[|kepts|]));
      && (kepts != [] && kepts[|kepts| - 1] <= Minus(max, lens[|kepts|]) ==>
          Minus(max, lens[|kepts|]) == kepts[|kepts| - 1])
      && lens[|kepts|] <= next
      && (next != lens[|kepts|] ==> Rising(lens + [next]))
  {
    if kepts != [] {
      MarkerMonotone(total - kepts[|kepts| - 1], total - Minus(max, lens[|kepts|]));
    }
    hide MarkerLen;
  }

  /** `truncate_chars_with_marker`. */
  method TruncateByChars(text: string, max: nat) returns (out: string)
    requires 1 <= max < |text|
    ensures Truncated(text, max, out)
    ensures exists omitted, head, tail :: CharsCutAt(text, max, out, omitted, head, tail)
  {
    hide Marker, MarkerLen, Truncated;
    var omitted := CharMarker(|text|, max);
    var markerLen := MarkerLen(omitted);
    if max <= markerLen {
      NothingKept(text, max, omitted);
      out := MarkerOnly(Marker(omitted), max);
      assert CharsCutAt(text, max, out, omitted, 0, 0);
      return;
    }
    var available := max - markerLen;
    var head := available / 2;
    var tail := available - head;
    out := text[..head] + Marker(omitted) + text[|text| - tail..];
    TextCut(text, head, |text| - tail, max);
    assert CharsCutAt(text, max, out, omitted, head, tail);
  }
}
