/** The check that a patched file differs from the original only inside an allowed byte range. */
module EditRange {
  import opened Wrappers
  import opened ByteStrings

  /** `str::is_char_boundary`: not in front of a UTF-8 continuation byte. */
  predicate Boundary(text: Bytes, i: nat) {
    i == 0 || i == |text| || (i < |text| && !(0x80 <= text[i] < 0xC0))
  }

  /** Length of the longest common prefix. */
  function Lcp(a: Bytes, b: Bytes): (n: nat)
    ensures n <= |a| && n <= |b| && a[..n] == b[..n]
    ensures n < |a| && n < |b| ==> a[n] != b[n]
  {
    if a != [] && b != [] && a[0] == b[0] then
      var n := 1 + Lcp(a[1..], b[1..]);
      assert a[..n] == [a[0]] + a[1..][..n - 1] && b[..n] == [b[0]] + b[1..][..n - 1];
      n
    else 0
  }

  /** `after` agrees with `before` on all bytes before `s` and on all bytes from `e` on, without overlap. */
  ghost predicate Preserved(before: Bytes, after: Bytes, s: nat, e: nat) {
    && s <= e <= |before|
    && s + (|before| - e) <= |after|
    && after[..s] == before[..s]
    && after[|after| - (|before| - e)..] == before[e..]
  }

  lemma {:induction false} LcpAtLeast(a: Bytes, b: Bytes, n: nat)
    requires n <= |a| && n <= |b| && a[..n] == b[..n]
    ensures Lcp(a, b) >= n
  {
    if n > 0 {
      assert a[0] == a[..n][0] && b[0] == b[..n][0];
      assert a[1..][..n - 1] == a[..n][1..] && b[1..][..n - 1] == b[..n][1..];
      LcpAtLeast(a[1..], b[1..], n - 1);
    }
  }

  lemma {:induction false} LcpAtMost(a: Bytes, b: Bytes, n: nat)
    requires n < |a| && n < |b| && a[n] != b[n]
    ensures Lcp(a, b) <= n
  {
    if n > 0 { LcpAtMost(a[1..], b[1..], n - 1); }
  }

  method CommonPrefix(before: Bytes, after: Bytes) returns (prefix: nat)
    ensures prefix == Lcp(before, after)
  {
    prefix := 0;
    var minLen := Min(|before|, |after|);
    while prefix < minLen && before[prefix] == after[prefix]
      invariant prefix <= minLen && before[..prefix] == after[..prefix]
    {
      assert before[..prefix + 1] == before[..prefix] + [before[prefix]];
      assert after[..prefix + 1] == after[..prefix] + [after[prefix]];
      prefix := prefix + 1;
    }
    LcpAtLeast(before, after, prefix);
    if prefix < minLen { LcpAtMost(before, after, prefix); }
  }

  /** The last `n` bytes agree. */
  ghost predicate SameEnd(a: Bytes, b: Bytes, n: nat) {
    n <= |a| && n <= |b| && a[|a| - n..] == b[|b| - n..]
  }

  lemma SameEndShorter(a: Bytes, b: Bytes, n: nat, m: nat)
    requires SameEnd(a, b, n) && m <= n
    ensures SameEnd(a, b, m)
  {
    assert a[|a| - m..] == a[|a| - n..][n - m..] && b[|b| - m..] == b[|b| - n..][n - m..];
  }

  lemma SameEndNext(a: Bytes, b: Bytes, n: nat)
    requires SameEnd(a, b, n) && n < |a| && n < |b|
    ensures SameEnd(a, b, n + 1) <==> a[|a| - 1 - n] == b[|b| - 1 - n]
  {
    assert a[|a| - (n + 1)..] == [a[|a| - 1 - n]] + a[|a| - n..];
    assert b[|b| - (n + 1)..] == [b[|b| - 1 - n]] + b[|b| - n..];
    if SameEnd(a, b, n + 1) { assert a[|a| - (n + 1)..][0] == b[|b| - (n + 1)..][0]; }
  }

  /** The longest common suffix of at most `limit` bytes. */
  method CommonSuffix(before: Bytes, after: Bytes, limit: nat) returns (suffix: nat)
    requires limit <= |before| && limit <= |after|
    ensures suffix <= limit && SameEnd(before, after, suffix)
    ensures forall n: nat :: n <= limit && SameEnd(before, after, n) ==> n <= suffix
  {
    suffix := 0;
    while suffix < limit && before[|before| - 1 - suffix] == after[|after| - 1 - suffix]
      invariant suffix <= limit && SameEnd(before, after, suffix)
    {
      SameEndNext(before, after, suffix);
      suffix := suffix + 1;
    }
    forall n: nat | n <= limit && SameEnd(before, after, n) ensures n <= suffix {
      SameEndShorter(before, after, n, Min(n, suffix + 1));
      if suffix < limit { SameEndNext(before, after, suffix); }
    }
  }

  datatype Span = Span(start: nat, end: nat)

  /** The span of `before` that an edit into `after` may be said to have changed. */
  ghost predicate IsSpan(before: Bytes, after: Bytes, span: Span) {
    exists suffix: nat ::
      && Lcp(before, after) + suffix <= Min(|before|, |after|)
      && SameEnd(before, after, suffix)
      && (forall n: nat :: Lcp(before, after) + n <= Min(|before|, |after|) && SameEnd(before, after, n) ==>
          n <= suffix)
      && span.start <= Lcp(before, after)
      && |before| - suffix <= span.end <= |before|
      && Boundary(before, span.start) && Boundary(before, span.end)
      && (forall b: nat :: Boundary(before, b) && b <= Lcp(before, after) ==> b <= span.start)
      && (forall b: nat :: Boundary(before, b) && |before| - suffix <= b ==> span.end <= b)
  }

  /** `diff_span_before`: greedy prefix, then suffix, widened to character boundaries. */
  method DiffSpanBefore(before: Bytes, after: Bytes) returns (span: Option<Span>)
    ensures span.None? <==> before == after
    ensures span.Some? ==> IsSpan(before, after, span.value)
  {
    if before == after {
      return None;
    }
    var prefix := CommonPrefix(before, after);
    var suffix := CommonSuffix(before, after, Min(|before| - prefix, |after| - prefix));
    var start, end := prefix, |before| - suffix;
    while start > 0 && !Boundary(before, start)
      invariant start <= prefix
      invariant forall b: nat :: Boundary(before, b) && b <= prefix ==> b <= start
    {
      start := start - 1;
    }
    while end < |before| && !Boundary(before, end)
      invariant |before| - suffix <= end <= |before|
      invariant forall b: nat :: Boundary(before, b) && |before| - suffix <= b ==> end <= b
      decreases |before| - end
    {
      end := end + 1;
    }
    return Some(Span(start, end));
  }

  lemma SpanUnique(before: Bytes, after: Bytes, a: Span, b: Span)
    requires IsSpan(before, after, a) && IsSpan(before, after, b)
    ensures a == b
  {
  }

  /** The texts are equal, or the range is proper and the changed span lies inside it. */
  ghost predicate Accepts(before: Bytes, after: Bytes, start: Option<nat>, end: Option<nat>) {
    before == after ||
    (start.Some? && end.Some? && start.value <= end.value <= |before|
     && exists span :: IsSpan(before, after, span) && start.value <= span.start && span.end <= end.value)
  }

  datatype RangeError = InvalidStart | InvalidEnd | InvalidRange | Outside

  /**
   `enforce_text_unchanged_outside_range`; `start` and `end` are the byte offsets of the allowed
   range, if it names positions in the file. Acceptance means the text outside the range is intact.
   Between character boundaries the check accepts exactly the changes that keep it intact and whose
   common prefix with the original neither runs past the range nor into the part kept behind it.
   */
  method EnforceUnchangedOutside(before: Bytes, after: Bytes, start: Option<nat>, end: Option<nat>)
    returns (r: Result<(), RangeError>)
    ensures r.Success? <==> Accepts(before, after, start, end)
    ensures r.Success? && before != after ==>
            start.Some? && end.Some? && Preserved(before, after, start.value, end.value)
    ensures before != after && start.Some? && end.Some? && Boundary(before, start.value)
            && Boundary(before, end.value) ==>
              (r.Success? <==>
                 && Preserved(before, after, start.value, end.value)
                 && Lcp(before, after) <= end.value
                 && Lcp(before, after) + (|before| - end.value) <= |after|)
    ensures before != after && start.None? ==> r == Failure(InvalidStart)
    ensures before != after && start.Some? && end.None? ==> r == Failure(InvalidEnd)
  {
    if before == after {
      return Success(());
    }
    if start.None? {
      return Failure(InvalidStart);
    }
    if end.None? {
      return Failure(InvalidEnd);
    }
    var s, e := start.value, end.value;
    if s > e || e > |before| {
      return Failure(InvalidRange);
    }
    var span := DiffSpanBefore(before, after);
    if span.None? {
      assert false;
    } else {
      SpanDecides(before, after, span.value, s, e);
      forall other | IsSpan(before, after, other)
        ensures other == span.value
      {
        SpanUnique(before, after, other, span.value);
      }
      hide IsSpan;
      if span.value.start < s || span.value.end > e {
        return Failure(Outside);
      }
      return Success(());
    }
  }

  /** Acceptance is sound. */
  lemma AcceptsPreserves(before: Bytes, after: Bytes, start: Option<nat>, end: Option<nat>)
    requires Accepts(before, after, start, end) && before != after
    ensures Preserved(before, after, start.value, end.value)
  {
    var span :| IsSpan(before, after, span) && start.value <= span.start && span.end <= end.value;
    SpanDecides(before, after, span, start.value, end.value);
  }

  lemma {:induction false} SpanDecides(before: Bytes, after: Bytes, span: Span, s: nat, e: nat)
    requires IsSpan(before, after, span) && s <= e <= |before|
    ensures s <= span.start && span.end <= e ==>
              Preserved(before, after, s, e) && Lcp(before, after) <= e
              && Lcp(before, after) + (|before| - e) <= |after|
    ensures Boundary(before, s) && Boundary(before, e) && Preserved(before, after, s, e)
         && Lcp(before, after) <= e && Lcp(before, after) + (|before| - e) <= |after|
         ==> s <= span.start && span.end <= e
  {
    var p := Lcp(before, after);
    var suffix: nat :|
      && p + suffix <= Min(|before|, |after|)
      && SameEnd(before, after, suffix)
      && (forall n: nat :: p + n <= Min(|before|, |after|) && SameEnd(before, after, n) ==> n <= suffix)
      && span.start <= p
      && |before| - suffix <= span.end <= |before|
      && Boundary(before, span.start) && Boundary(before, span.end)
      && (forall b: nat :: Boundary(before, b) && b <= p ==> b <= span.start)
      && (forall b: nat :: Boundary(before, b) && |before| - suffix <= b ==> span.end <= b);
    if s <= span.start && span.end <= e {
      assert before[..s] == before[..p][..s] && after[..s] == after[..p][..s];
      SameEndShorter(before, after, suffix, |before| - e);
    }
    if Preserved(before, after, s, e) {
      LcpAtLeast(before, after, s);
      assert SameEnd(before, after, |before| - e) by { assert |before| - (|before| - e) == e; }
    }
  }

  /** The check is not complete: an insertion that repeats what follows the range is refused. */
  lemma RepeatedInsertionRefused()
    ensures var before: Bytes, after: Bytes := [97, 98], [97, 97, 98];
      Preserved(before, after, 0, 0) && Boundary(before, 0) && !Accepts(before, after, Some(0), Some(0))
  {
    var before: Bytes, after: Bytes := [97, 98], [97, 97, 98];
    assert after[|after| - 2..] == before[0..];
    LcpAtLeast(before, after, 1);
    forall span | IsSpan(before, after, span) ensures !(0 <= span.start && span.end <= 0) {
      SpanDecides(before, after, span, 0, 0);
    }
  }
}
