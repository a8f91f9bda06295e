/** Truncation of diffs at file-section and hunk boundaries, and the choice between all the ways. */
module DiffTruncation {
  import opened Wrappers
  import opened Text
  import opened DiffMarks
  import opened Selection
  import opened MarkerLength
  import opened Truncation

  // ----- groups of lines

  /** `bounds` cut the lines from `bounds[0]` to the end into non-empty groups. */
  ghost predicate Bounds(bounds: seq<nat>, n: nat) {
    && |bounds| >= 1
    && bounds[|bounds| - 1] == n
    && forall i, j :: 0 <= i < j < |bounds| ==> bounds[i] < bounds[j]
  }

  /** The characters of each group. */
  ghost predicate GroupChars(lens: seq<nat>, bounds: seq<nat>, chars: seq<nat>) {
    && Bounds(bounds, |lens|)
    && |chars| == |bounds| - 1
    && forall i :: 0 <= i < |chars| ==> GroupAt(lens, bounds, chars, i)
  }

  ghost predicate GroupAt(lens: seq<nat>, bounds: seq<nat>, chars: seq<nat>, i: nat)
    requires i < |chars| && i + 1 < |bounds|
  {
    bounds[i] <= bounds[i + 1] <= |lens| && chars[i] == Head(lens, bounds[i + 1]) - Head(lens, bounds[i])
  }

  lemma BoundsInside(bounds: seq<nat>, n: nat, i: nat)
    requires Bounds(bounds, n) && i < |bounds|
    ensures bounds[i] <= n
  {
  }

  lemma {:induction false} GroupHead(lens: seq<nat>, bounds: seq<nat>, chars: seq<nat>, k: nat)
    requires GroupChars(lens, bounds, chars) && k <= |chars|
    ensures bounds[0] <= bounds[k] <= |lens|
    ensures Head(lens, bounds[0]) + Head(chars, k) == Head(lens, bounds[k])
  {
    BoundsInside(bounds, |lens|, k);
    if k > 0 {
      GroupHead(lens, bounds, chars, k - 1);
      assert GroupAt(lens, bounds, chars, k - 1);
    }
  }

  lemma {:induction false} GroupTail(lens: seq<nat>, bounds: seq<nat>, chars: seq<nat>, m: nat)
    requires GroupChars(lens, bounds, chars) && m <= |chars|
    ensures bounds[|chars| - m] <= |lens|
    ensures Head(lens, bounds[|chars| - m]) + Tail(chars, m) == Head(lens, |lens|)
  {
    BoundsInside(bounds, |lens|, |chars| - m);
    if m > 0 {
      GroupTail(lens, bounds, chars, m - 1);
      assert GroupAt(lens, bounds, chars, |chars| - m);
    }
  }

  lemma GroupsPositive(lens: seq<nat>, bounds: seq<nat>, chars: seq<nat>)
    requires GroupChars(lens, bounds, chars) && Positive(lens)
    ensures Positive(chars)
  {
    forall i | 0 <= i < |chars| ensures chars[i] > 0 {
      assert GroupAt(lens, bounds, chars, i);
      HeadMonotone(lens, bounds[i] + 1, bounds[i + 1]);
    }
  }

  method SumLines(lens: seq<nat>, from: nat, to: nat) returns (sum: nat)
    requires from <= to <= |lens|
    ensures Head(lens, from) + sum == Head(lens, to)
  {
    sum := 0;
    for l := from to to
      invariant Head(lens, from) + sum == Head(lens, l)
    {
      sum := sum + lens[l];
    }
  }

  /** Sums each group's line lengths. */
  method SumGroups(lens: seq<nat>, bounds: seq<nat>) returns (chars: seq<nat>)
    requires Bounds(bounds, |lens|)
    ensures GroupChars(lens, bounds, chars)
  {
    hide Head;
    chars := [];
    for i := 0 to |bounds| - 1
      invariant |chars| == i
      invariant forall j :: 0 <= j < i ==> GroupAt(lens, bounds, chars, j)
    {
      BoundsInside(bounds, |lens|, i + 1);
      var sum := SumLines(lens, bounds[i], bounds[i + 1]);
      ghost var before := chars;
      chars := chars + [sum];
      forall j | 0 <= j < i + 1 ensures GroupAt(lens, bounds, chars, j) {
        if j < i { assert GroupAt(lens, bounds, before, j); }
      }
    }
  }

  // ----- by file sections

  function KeptWith(pre: nat, chars: seq<nat>, k: nat, m: nat): nat
    requires k + m <= |chars|
  {
    pre + Kept(chars, k, m)
  }

  /** Keeping the first `k` and last `m` sections omits something, keeps something, and fits. */
  predicate SectionsFit(pre: nat, chars: seq<nat>, total: nat, max: nat, k: nat, m: nat) {
    && 0 < k + m < |chars|
    && KeptWith(pre, chars, k, m) < total
    && KeptWith(pre, chars, k, m) + MarkerLen(total - KeptWith(pre, chars, k, m)) <= max
  }

  /** Lexicographic: both ends, then number of sections, then characters. */
  predicate NoBetter(pre: nat, chars: seq<nat>, k: nat, m: nat, k': nat, m': nat)
    requires k + m <= |chars| && k' + m' <= |chars|
  {
    || (!Both(k, m) && Both(k', m'))
    || (Both(k, m) == Both(k', m') && k + m < k' + m')
    || (Both(k, m) == Both(k', m') && k + m == k' + m' && KeptWith(pre, chars, k, m) <= KeptWith(pre, chars, k', m'))
  }

  ghost predicate BestSections(pre: nat, chars: seq<nat>, total: nat, max: nat, k: nat, m: nat) {
    && SectionsFit(pre, chars, total, max, k, m)
    && forall k': nat, m': nat :: SectionsFit(pre, chars, total, max, k', m') ==> NoBetter(pre, chars, k', m', k, m)
  }

  datatype Choice = Choice(k: nat, m: nat)

  /** `best` is right about all pairs in front of (k, m) in row order. */
  ghost predicate BestSoFar(pre: nat, chars: seq<nat>, total: nat, max: nat, k: nat, m: nat, best: Option<Choice>) {
    && (best.Some? ==> SectionsFit(pre, chars, total, max, best.value.k, best.value.m))
    && forall k': nat, m': nat :: (k' < k || (k' == k && m' < m)) && SectionsFit(pre, chars, total, max, k', m') ==>
         best.Some? && NoBetter(pre, chars, k', m', best.value.k, best.value.m)
  }

  lemma NoBetterTransitive(pre: nat, chars: seq<nat>, a: Choice, b: Choice, c: Choice)
    requires a.k + a.m <= |chars| && b.k + b.m <= |chars| && c.k + c.m <= |chars|
    requires NoBetter(pre, chars, a.k, a.m, b.k, b.m) && NoBetter(pre, chars, b.k, b.m, c.k, c.m)
    ensures NoBetter(pre, chars, a.k, a.m, c.k, c.m)
  {
  }

  lemma BestAdvance(pre: nat, chars: seq<nat>, total: nat, max: nat, k: nat, m: nat, best: Option<Choice>)
    requires BestSoFar(pre, chars, total, max, k, m, best)
    ensures !SectionsFit(pre, chars, total, max, k, m) ==> BestSoFar(pre, chars, total, max, k, m + 1, best)
    ensures SectionsFit(pre, chars, total, max, k, m) && best.None? ==>
              BestSoFar(pre, chars, total, max, k, m + 1, Some(Choice(k, m)))
    ensures SectionsFit(pre, chars, total, max, k, m) && best.Some? ==>
              BestSoFar(pre, chars, total, max, k, m + 1,
                        if NoBetter(pre, chars, k, m, best.value.k, best.value.m) then best else Some(Choice(k, m)))
  {
    hide MarkerLen, Kept;
    if SectionsFit(pre, chars, total, max, k, m) && best.Some?
       && !NoBetter(pre, chars, k, m, best.value.k, best.value.m) {
      forall k': nat, m': nat | (k' < k || (k' == k && m' < m)) && SectionsFit(pre, chars, total, max, k', m')
        ensures NoBetter(pre, chars, k', m', k, m)
      {
        NoBetterTransitive(pre, chars, Choice(k', m'), best.value, Choice(k, m));
      }
    }
  }

  /** The double loop over how many leading and trailing sections to keep. */
  method ChooseSections(pre: nat, chars: seq<nat>, total: nat, max: nat) returns (best: Option<Choice>)
    ensures best.None? ==> forall k: nat, m: nat :: !SectionsFit(pre, chars, total, max, k, m)
    ensures best.Some? ==> BestSections(pre, chars, total, max, best.value.k, best.value.m)
  {
    hide MarkerLen, Kept;
    best := None;
    var n := |chars|;
    var k := 0;
    while k <= n
      invariant k <= n + 1
      invariant BestSoFar(pre, chars, total, max, k, 0, best)
    {
      var m := 0;
      while m <= n - k
        invariant m <= n - k + 1
        invariant BestSoFar(pre, chars, total, max, k, m, best)
      {
        BestAdvance(pre, chars, total, max, k, m, best);
        if SectionsFit(pre, chars, total, max, k, m) {
          if best.None? || !NoBetter(pre, chars, k, m, best.value.k, best.value.m) {
            best := Some(Choice(k, m));
          }
        }
        m := m + 1;
      }
      k := k + 1;
    }
  }

  /** Replacing the lines between two group bounds by a marker. */
  lemma {:induction false} BoundCut(lines: seq<string>, bounds: seq<nat>, chars: seq<nat>, k: nat, m: nat,
      omitted: nat, max: nat)
    requires GroupChars(Lens(lines), bounds, chars) && k + m <= |chars| && bounds[0] <= |lines|
    requires omitted > 0 && KeptWith(Head(Lens(lines), bounds[0]), chars, k, m) + omitted == |Flatten(lines)|
    requires KeptWith(Head(Lens(lines), bounds[0]), chars, k, m) + MarkerLen(omitted) <= max
    ensures bounds[k] <= bounds[|chars| - m] <= |lines|
    ensures Truncated(Flatten(lines), max,
            Flatten(lines[..bounds[k]]) + Marker(omitted) + Flatten(lines[bounds[|chars| - m]..]))
  {
    hide MarkerLen, Marker, Truncated, Lens, Flatten;
    var lens := Lens(lines);
    GroupHead(lens, bounds, chars, k);
    GroupTail(lens, bounds, chars, m);
    TotalLength(lines);
    assert bounds[k] <= bounds[|chars| - m] by { hide Head; }
    hide GroupChars, Head, Tail;
    LineCut(lines, bounds[k], bounds[|chars| - m], omitted, max);
  }

  lemma {:induction false} TotalLength(lines: seq<string>)
    ensures Head(Lens(lines), |lines|) == |Flatten(lines)|
  {
    HeadIsLength(lines, |lines|);
    assert lines[..|lines|] == lines;
  }

  lemma SomethingKept(chars: seq<nat>, k: nat, m: nat)
    requires Positive(chars) && 0 < k + m <= |chars|
    ensures Kept(chars, k, m) > 0
  {
    if k > 0 { HeadMonotone(chars, 1, k); } else { TailMonotone(chars, 1, m); }
  }

  lemma StartsBound(starts: seq<nat>, n: nat)
    requires Increasing(starts, n)
    ensures Bounds(starts + [n], n)
  {
  }

  ghost predicate SectionsCutAt(lines: seq<string>, starts: seq<nat>, max: nat, out: string, chars: seq<nat>, k: nat,
      m: nat)
    requires |starts| >= 2 && starts[0] <= |lines|
  {
    var pre, total, bounds := Head(Lens(lines), starts[0]), |Flatten(lines)|, starts + [|lines|];
    && GroupChars(Lens(lines), bounds, chars)
    && BestSections(pre, chars, total, max, k, m)
    && bounds[k] <= |lines| && bounds[|chars| - m] <= |lines|
    && out == Flatten(lines[..bounds[k]]) + Marker(total - KeptWith(pre, chars, k, m))
        + Flatten(lines[bounds[|chars| - m]..])
  }

  /** The best choice of whole sections, around a marker for the others. */
  ghost predicate CutBySections(lines: seq<string>, starts: seq<nat>, max: nat, out: string) {
    |starts| >= 2 && starts[0] <= |lines| && exists chars, k, m :: SectionsCutAt(lines, starts, max, out, chars, k, m)
  }

  /** There are no two sections, or no choice of them that fits. */
  ghost predicate NoSectionsFit(lines: seq<string>, starts: seq<nat>, max: nat) {
    || |starts| < 2
    || (starts[0] <= |lines|
        && exists chars :: GroupChars(Lens(lines), starts + [|lines|], chars) && NoneFit(lines, starts[0], max, chars))
  }

  ghost predicate NoneFit(lines: seq<string>, first: nat, max: nat, chars: seq<nat>)
    requires first <= |lines|
  {
    forall k: nat, m: nat :: !SectionsFit(Head(Lens(lines), first), chars, |Flatten(lines)|, max, k, m)
  }

  /** `truncate_diff_by_file_sections_with_starts`, for section starts in line order. */
  method TruncateBySections(lines: seq<string>, starts: seq<nat>, max: nat) returns (r: Option<string>)
    requires Positive(Lens(lines)) && Increasing(starts, |lines|)
    ensures r.None? ==> NoSectionsFit(lines, starts, max)
    ensures r.Some? ==> CutBySections(lines, starts, max, r.value) && Truncated(Flatten(lines), max, r.value)
  {
    hide MarkerLen, Marker, Truncated, Lens, Flatten, Head, Tail;
    if |starts| < 2 {
      return None;
    }
    var bounds, lens := starts + [|lines|], Lens(lines);
    StartsBound(starts, |lines|);
    var chars := SumGroups(lens, bounds);
    var pre := SumLines(lens, 0, starts[0]);
    assert pre == Head(lens, starts[0]) by { HeadOfNone(lens); }
    var total := |Flatten(lines)|;
    var best := ChooseSections(pre, chars, total, max);
    if best.None? {
      assert NoneFit(lines, starts[0], max, chars);
      return None;
    }
    var k, m := best.value.k, best.value.m;
    var kept := pre + Kept(chars, k, m);
    var marker := Marker(total - kept);
    GroupsPositive(lens, bounds, chars);
    SomethingKept(chars, k, m);
    MarkerSize(total - kept);
    if max <= |marker| {
      assert false;
    } else {
      BoundCut(lines, bounds, chars, k, m, total - kept, max);
      r := Some(Flatten(lines[..bounds[k]]) + marker + Flatten(lines[bounds[|chars| - m]..]));
      assert SectionsCutAt(lines, starts, max, r.value, chars, k, m);
    }
  }

  lemma {:induction false} HeadOfNone(lens: seq<nat>)
    ensures Head(lens, 0) == 0
  {
  }

  // ----- by hunks

  /** No marker that is right about itself leaves room behind what is always kept. */
  ghost predicate NoRoom(chars: seq<nat>, pre: nat, total: nat, max: nat) {
    forall o: nat :: SettledAt(chars, pre, total, max, o) ==> Minus(max, MarkerLen(o)) <= pre
  }

  lemma NoRoomLater(chars: seq<nat>, pre: nat, total: nat, max: nat, len: nat)
    requires AtLeast(chars, pre, total, max, len) && Minus(max, len) <= pre
    ensures NoRoom(chars, pre, total, max)
  {
    hide MarkerLen, SettledAt;
  }

  method HunkMarker(chars: seq<nat>, pre: nat, total: nat, max: nat) returns (omitted: Option<nat>)
    requires Positive(chars) && total == pre + Head(chars, |chars|)
    ensures omitted.Some? ==>
              && pre < Minus(max, MarkerLen(omitted.value))
              && SettledAt(chars, pre, total, max, omitted.value)
              && AtLeast(chars, pre, total, max, MarkerLen(omitted.value))
    ensures omitted.None? ==> NoRoom(chars, pre, total, max)
  {
    hide MarkerLen, Head, Tail, Rounds, Rising, AtLeast, NoRoom;
    AtLeastNothing(chars, pre, total, max);
    var markerLen, r, stable, o := 0, 0, false, 0;
    ghost var lens, kepts: seq<nat>, lastP: nat, lastS: nat := [0], [], 0, 0;
    FirstRound(chars, pre, total, max);
    while r < 8 && !stable
      invariant r <= 8 && |kepts| == r && |lens| == r + 1
      invariant !stable ==> Iterating(chars, pre, total, max, lens, kepts, lastP, lastS) && lens[r] == markerLen
      invariant stable ==>
                  pre < Minus(max, MarkerLen(o)) && SettledAt(chars, pre, total, max, o) && markerLen == MarkerLen(o)
      invariant AtLeast(chars, pre, total, max, markerLen)
      decreases 8 - r
    {
      var available := Minus(max, markerLen);
      if available <= pre {
        NoRoomLater(chars, pre, total, max, markerLen);
        return None;
      }
      var p, s, kept := SelectPrefixSuffix(chars, available - pre);
      NextRound(chars, pre, total, max, lens, kepts, lastP, lastS, p, s);
      RoundStaysBelow(chars, pre, total, max, markerLen, p, s);
      o := Minus(total, pre + kept);
      var nextLen := MarkerLen(o);
      stable := nextLen == markerLen;
      markerLen := nextLen;
      lens, kepts, lastP, lastS, r := lens + [nextLen], kepts + [pre + kept], p, s, r + 1;
    }
    if !stable {
      RisingFiveRounds(total, max, lens, kepts);
      assert false;
    } else {
      omitted := Some(o);
    }
  }

  /** The file's first line, each hunk's, and the end. */
  ghost predicate AreHunkBounds(bounds: seq<nat>, fileStart: nat, hunks: seq<nat>, n: nat) {
    && Bounds(bounds, n) && bounds[0] == fileStart
    && forall b :: b in bounds <==> b == fileStart || b == n || (b in hunks && b > fileStart)
  }

  /** The bounds of the file header chunk and of each hunk after `fileStart`. */
  method HunkBounds(fileStart: nat, hunks: seq<nat>, n: nat) returns (bounds: seq<nat>)
    requires fileStart < n && Increasing(hunks, n)
    ensures AreHunkBounds(bounds, fileStart, hunks, n)
  {
    bounds := [fileStart];
    for i := 0 to |hunks|
      invariant Increasing(bounds, n) && |bounds| >= 1 && bounds[0] == fileStart
      invariant forall b :: b in bounds <==> b == fileStart || (b in hunks[..i] && b > fileStart)
      invariant forall b :: b in bounds && i < |hunks| && b != fileStart ==> b < hunks[i]
    {
      assert hunks[..i + 1] == hunks[..i] + [hunks[i]];
      if hunks[i] > fileStart {
        assert forall j :: 0 <= j < |bounds| ==> bounds[j] in bounds;
        bounds := bounds + [hunks[i]];
      }
    }
    assert hunks[..|hunks|] == hunks;
    bounds := bounds + [n];
  }

  /**
   The shortest marker that is right about itself leaves room for the best choice of chunks, which
   keeps both ends and omits something.
   */
  ghost predicate HunkChoice(chars: seq<nat>, pre: nat, total: nat, max: nat, omitted: nat, p: nat, s: nat) {
    && SettledAt(chars, pre, total, max, omitted) && AtLeast(chars, pre, total, max, MarkerLen(omitted))
    && pre < Minus(max, MarkerLen(omitted))
    && Best(chars, Budget(max, MarkerLen(omitted), pre), p, s) && Both(p, s) && p + s < |chars|
  }

  ghost predicate HunksCutAt(lines: seq<string>, fileStart: nat, hunks: seq<nat>, max: nat, out: string,
                             bounds: seq<nat>, chars: seq<nat>, omitted: nat, p: nat, s: nat)
    requires fileStart < |lines|
  {
    && AreHunkBounds(bounds, fileStart, hunks, |lines|) && GroupChars(Lens(lines), bounds, chars)
    && HunkChoice(chars, Head(Lens(lines), fileStart), |Flatten(lines)|, max, omitted, p, s)
    && bounds[p] <= |lines| && bounds[|chars| - s] <= |lines|
    && out == Flatten(lines[..bounds[p]]) + Marker(omitted) + Flatten(lines[bounds[|chars| - s]..])
  }

  ghost predicate CutByHunks(lines: seq<string>, fileStart: nat, hunks: seq<nat>, max: nat, out: string) {
    fileStart < |lines| &&
    exists bounds, chars, omitted, p, s :: HunksCutAt(lines, fileStart, hunks, max, out, bounds, chars, omitted, p, s)
  }

  ghost predicate NoChoice(chars: seq<nat>, pre: nat, total: nat, max: nat) {
    forall omitted: nat, p: nat, s: nat :: !HunkChoice(chars, pre, total, max, omitted, p, s)
  }

  ghost predicate NoHunksFit(lines: seq<string>, fileStart: nat, hunks: seq<nat>, max: nat) {
    || |hunks| < 2
    || (fileStart < |lines| && Head(Lens(lines), fileStart) >= max)
    || (fileStart < |lines|
        && exists bounds, chars ::
             && AreHunkBounds(bounds, fileStart, hunks, |lines|) && GroupChars(Lens(lines), bounds, chars)
             && NoChoice(chars, Head(Lens(lines), fileStart), |Flatten(lines)|, max))
  }

  /** If the shortest marker leads to no choice, no other does. */
  lemma ChoiceDecided(chars: seq<nat>, pre: nat, total: nat, max: nat, omitted: nat, p: nat, s: nat)
    requires Positive(chars)
    requires SettledAt(chars, pre, total, max, omitted) && AtLeast(chars, pre, total, max, MarkerLen(omitted))
    requires Best(chars, Budget(max, MarkerLen(omitted), pre), p, s) && !(Both(p, s) && p + s < |chars|)
    ensures NoChoice(chars, pre, total, max)
  {
    hide MarkerLen, Budget, SettledAt, Kept, Head, Tail;
    forall o: nat, p': nat, s': nat | HunkChoice(chars, pre, total, max, o, p', s') ensures false {
      assert MarkerLen(o) == MarkerLen(omitted);
      SameChoice(chars, Budget(max, MarkerLen(omitted), pre), p, s, p', s');
    }
  }

  lemma SameChoice(chars: seq<nat>, budget: nat, p: nat, s: nat, p': nat, s': nat)
    requires Positive(chars) && Best(chars, budget, p, s) && Best(chars, budget, p', s')
    ensures Both(p, s) == Both(p', s')
    ensures p' + s' < |chars| ==> p + s < |chars|
  {
    BestUnique(chars, budget, p, s, p', s');
    if p' + s' < |chars| && p + s == |chars| {
      SomeOmitted(chars, p', s');
      HeadPlusTail(chars, p);
    }
  }

  lemma TooFewChunks(chars: seq<nat>, pre: nat, total: nat, max: nat)
    requires |chars| < 3
    ensures NoChoice(chars, pre, total, max)
  {
  }

  lemma NoRoomNoChoice(chars: seq<nat>, pre: nat, total: nat, max: nat)
    requires NoRoom(chars, pre, total, max)
    ensures NoChoice(chars, pre, total, max)
  {
    hide MarkerLen, SettledAt, Best;
  }

  /** The common part of the two `truncate_*_by_hunk_boundaries`. */
  method TruncateByHunks(lines: seq<string>, fileStart: nat, hunks: seq<nat>, max: nat) returns (r: Option<string>)
    requires Positive(Lens(lines)) && fileStart < |lines| && Increasing(hunks, |lines|)
    ensures r.None? ==> NoHunksFit(lines, fileStart, hunks, max)
    ensures r.Some? ==> CutByHunks(lines, fileStart, hunks, max, r.value) && Truncated(Flatten(lines), max, r.value)
  {
    hide MarkerLen, Marker, Truncated, Lens, Flatten, Head, Tail, AtLeast, NoRoom, NoChoice, AreHunkBounds;
    if |hunks| < 2 {
      return None;
    }
    var lens := Lens(lines);
    var pre := SumLines(lens, 0, fileStart);
    assert pre == Head(lens, fileStart) by { HeadOfNone(lens); }
    if pre >= max {
      return None;
    }
    var bounds := HunkBounds(fileStart, hunks, |lines|);
    HunkBoundsAre(bounds, fileStart, hunks, |lines|);
    var chars := SumGroups(lens, bounds);
    var total := |Flatten(lines)|;
    if |chars| < 3 {
      TooFewChunks(chars, pre, total, max);
      return None;
    }
    GroupsPositive(lens, bounds, chars);
    GroupTotal(lines, bounds, chars);
    var omitted := HunkMarker(chars, pre, total, max);
    if omitted.None? {
      NoRoomNoChoice(chars, pre, total, max);
      return None;
    }
    var markerLen := MarkerLen(omitted.value);
    if max <= markerLen || max - markerLen <= pre {
      assert false;
    }
    var p, s, kept := SelectPrefixSuffix(chars, max - markerLen - pre);
    if p == 0 || s == 0 || p + s >= |chars| {
      ChoiceDecided(chars, pre, total, max, omitted.value, p, s);
      return None;
    }
    SettledKept(chars, pre, total, max - markerLen - pre, omitted.value, p, s);
    SomeOmitted(chars, p, s);
    BoundCut(lines, bounds, chars, p, s, omitted.value, max);
    r := Some(Flatten(lines[..bounds[p]]) + Marker(omitted.value) + Flatten(lines[bounds[|chars| - s]..]));
    assert HunksCutAt(lines, fileStart, hunks, max, r.value, bounds, chars, omitted.value, p, s);
  }

  lemma HunkBoundsAre(bounds: seq<nat>, fileStart: nat, hunks: seq<nat>, n: nat)
    requires AreHunkBounds(bounds, fileStart, hunks, n)
    ensures Bounds(bounds, n) && bounds[0] == fileStart
  {
  }

  lemma {:induction false} GroupTotal(lines: seq<string>, bounds: seq<nat>, chars: seq<nat>)
    requires GroupChars(Lens(lines), bounds, chars)
    ensures bounds[0] <= |lines| && Head(Lens(lines), bounds[0]) + Head(chars, |chars|) == |Flatten(lines)|
  {
    hide Head, Lens, Flatten;
    GroupHead(Lens(lines), bounds, chars, |chars|);
    TotalLength(lines);
  }

  lemma {:induction false} SomeOmitted(chars: seq<nat>, p: nat, s: nat)
    requires Positive(chars) && p + s < |chars|
    ensures Kept(chars, p, s) < Head(chars, |chars|)
  {
    HeadPlusTail(chars, |chars| - s);
    HeadMonotone(chars, p, |chars| - s - 1);
  }

  // ----- finding sections and hunks

  /** `unified_diff_section_start` of the truncation code, which looks back at most two lines. */
  function SectionStart(lines: seq<string>, header: nat): (start: nat)
    requires header < |lines|
    ensures start <= header
  {
    if header >= 2 && StartsWith(lines[header - 2], "Index: ") && IsDelimiter(lines[header - 1]) then header - 2
    else if header >= 1 && (StartsWith(lines[header - 1], "Index: ") || StartsWith(lines[header - 1], "diff "))
    then header - 1
    else header
  }

  /** A section takes in its longest lead of at most two lines, and no other line in front of its header. */
  lemma {:induction false} SectionLead(lines: seq<string>, header: nat)
    requires header < |lines|
    ensures StartsWithLead(lines, header, SectionStart(lines, header), 2)
  {
    hide IsRule, IsDelimiter;
    var start := SectionStart(lines, header);
    forall i | 0 <= i < header ensures IsDelimiter(lines[i]) <==> IsRule(lines[i]) { DelimiterIsRule(lines[i]); }
    forall k: nat | k < start && header - k <= 2 ensures !IsLead(lines[k..header]) {
      assert forall j :: 0 <= j < header - k ==> lines[k..header][j] == lines[k + j];
    }
    assert forall j :: 0 <= j < header - start ==> lines[start..header][j] == lines[start + j];
  }

  /** A section never reaches back into the header pair of an earlier one. */
  lemma SectionStartAfter(lines: seq<string>, h: nat, g: nat)
    requires h < g < |lines| && Marks(lines, h, UnifiedHeader) && Marks(lines, g, UnifiedHeader)
    ensures h + 2 <= SectionStart(lines, g)
  {
    assert lines[h][0] == '-' && lines[h + 1][0] == '+' && lines[g][0] == '-';
    assert !IsDelimiter(lines[h + 1]) by { NotDelimiter(lines[h + 1]); }
  }

  ghost function UnifiedStarts(lines: seq<string>): (starts: seq<nat>)
    ensures |starts| == |MarkedBelow(lines, UnifiedHeader, |lines|)|
  {
    var headers := MarkedBelow(lines, UnifiedHeader, |lines|);
    MarkedBelowFacts(lines, UnifiedHeader, |lines|);
    seq(|headers|, i requires 0 <= i < |headers| => SectionStart(lines, headers[i]))
  }

  method SectionStarts(lines: seq<string>) returns (starts: seq<nat>)
    ensures starts == UnifiedStarts(lines) && Increasing(starts, |lines|)
  {
    hide SectionStart, Marks, MarkedBelow;
    var headers := ScanLines(lines, UnifiedHeader);
    assert forall i :: 0 <= i < |headers| ==> headers[i] in headers;
    starts := [];
    for i := 0 to |headers|
      invariant |starts| == i
      invariant forall j :: 0 <= j < i ==> starts[j] == SectionStart(lines, headers[j])
    {
      starts := starts + [SectionStart(lines, headers[i])];
    }
    forall i, j | 0 <= i < j < |starts| ensures starts[i] < starts[j] {
      SectionStartAfter(lines, headers[i], headers[j]);
    }
  }

  // ----- the choice

  predicate Contains(text: string, pattern: string) {
    exists i :: 0 <= i <= |text| && pattern <= text[i..]
  }

  ghost function Hunks(lines: seq<string>): seq<nat> {
    MarkedBelow(lines, HunkHeader, |lines|)
  }

  /** Whole sections if any choice of them fits; else, for a single file, whole hunks if a choice of them does. */
  ghost predicate CutByFiles(lines: seq<string>, starts: seq<nat>, max: nat, out: string) {
    || CutBySections(lines, starts, max, out)
    || (NoSectionsFit(lines, starts, max) && |starts| == 1 && CutByHunks(lines, starts[0], Hunks(lines), max, out))
  }

  ghost predicate NoFilesFit(lines: seq<string>, starts: seq<nat>, max: nat) {
    NoSectionsFit(lines, starts, max) && (|starts| == 1 ==> NoHunksFit(lines, starts[0], Hunks(lines), max))
  }

  method TruncateByFiles(lines: seq<string>, starts: seq<nat>, max: nat) returns (r: Option<string>)
    requires Positive(Lens(lines)) && Increasing(starts, |lines|)
    ensures r.Some? ==> CutByFiles(lines, starts, max, r.value) && Truncated(Flatten(lines), max, r.value)
    ensures r.None? ==> NoFilesFit(lines, starts, max)
  {
    hide Truncated, Lens, Flatten, Marks, CutBySections, NoSectionsFit, CutByHunks, NoHunksFit;
    r := TruncateBySections(lines, starts, max);
    if r.None? && |starts| == 1 {
      SingleFile(lines, starts, max);
      var hunks := ScanLines(lines, HunkHeader);
      r := TruncateByHunks(lines, starts[0], hunks, max);
    }
  }

  lemma SingleFile(lines: seq<string>, starts: seq<nat>, max: nat)
    requires |starts| == 1
    ensures NoSectionsFit(lines, starts, max)
  {
  }

  /** The files of a git diff start at its `diff --git` lines, those of other diffs at or before their header pair. */
  ghost function FileStarts(text: string): seq<nat> {
    var lines := SplitInclusive(text);
    if Contains(text, "diff --git ") then MarkedBelow(lines, GitHeader, |lines|) else UnifiedStarts(lines)
  }

  /**
   `truncate_middle_with_marker`. Short texts are returned as they are; every other result fits the
   limit and is the text with one stretch replaced by a marker stating exactly how many characters
   it stands for, unless the limit has no room for the marker of the whole text. The stretch is
   made of whole files if that is possible, else of whole hunks, else of whole lines.
   */
  method TruncateMiddle(text: string, maxChars: nat) returns (out: string)
    ensures |out| <= if maxChars == 0 then 1 else maxChars
    ensures |text| <= (if maxChars == 0 then 1 else maxChars) ==> out == text
    ensures |text| > (if maxChars == 0 then 1 else maxChars) ==>
              var max, lines := if maxChars == 0 then 1 else maxChars, SplitInclusive(text);
              && Truncated(text, max, out)
              && (CutByFiles(lines, FileStarts(text), max, out)
                  || (NoFilesFit(lines, FileStarts(text), max) && CutByLines(text, max, out)))
  {
    hide Contains, Lens, Flatten, SplitInclusive, CutByFiles, NoFilesFit, CutByLines, Marks, MarkedBelow, SectionStart;
    var max := if maxChars == 0 then 1 else maxChars;
    if |text| <= max {
      return text;
    }
    var lines := SplitInclusive(text);
    LinesPositive(text);
    var starts;
    if Contains(text, "diff --git ") {
      starts := ScanLines(lines, GitHeader);
    } else {
      starts := SectionStarts(lines);
    }
    var r := TruncateByFiles(lines, starts, max);
    if r.Some? {
      return r.value;
    }
    out := TruncateByLines(text, max);
  }
}
