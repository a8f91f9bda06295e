/**
 The retry loop around one provider call: a deadline, a concurrency permit per attempt, and capped
 exponential backoff. Times are nanoseconds since the operation started; everything the loop learns
 from outside (clock readings, cancellation, permits, provider replies) is given per attempt.
 */
module RetryLoop {
  import opened Wrappers
  import opened ChatErrors

  /** `Duration::MAX` in nanoseconds. */
  const DURATION_MAX: nat := 0x1_0000_0000_0000_0000 * 1_000_000_000 - 1

  datatype RetryConfig = RetryConfig(maxRetries: nat, initialBackoff: nat, maxBackoff: nat)

  datatype Permit = Granted | Expired | TokenCancelled | Closed

  /** What attempt number `attempt` observes; `reply` is `None` when the call outlives its timeout. */
  datatype Round = Round(
    cancelled: bool,
    elapsedAtTop: nat,
    permit: Permit,
    elapsedWithPermit: nat,
    reply: Option<Reply>,
    elapsedAfterCall: nat,
    cancelledAsleep: bool)

  datatype Event =
    | Acquire
    | Release
    | Call(at: nat, reply: Reply)
    | Sleep(delay: nat, remaining: nat)

  // ----- retry decision and delay

  predicate ShouldRetry(e: AiError) {
    match e
    case Cancelled => false
    case Timeout => true
    case Http(h) =>
      if h.isTimeout || h.isConnect then true
      else if h.status.None? then true
      else h.status.value == 408 || h.status.value == 429 || 500 <= h.status.value < 600
    case Other(_) => false
  }

  function SaturatingSub(a: nat, b: nat): nat { if a >= b then a - b else 0 }

  /** `Duration::saturating_mul`. */
  function SaturatingMul(d: nat, n: nat): nat { Min(d * n, DURATION_MAX) }

  function Pow2(n: nat): (r: nat)
    ensures r >= 1
  {
    if n == 0 then 1 else 2 * Pow2(n - 1)
  }

  /** Before the cap by the time that is left. */
  function RawDelay(cfg: RetryConfig, attempt: nat): nat {
    Min(SaturatingMul(cfg.initialBackoff, Pow2(Min(SaturatingSub(attempt, 1), 16))), cfg.maxBackoff)
  }

  function BackoffDelay(cfg: RetryConfig, attempt: nat, remaining: nat): nat {
    Min(RawDelay(cfg, attempt), remaining)
  }

  lemma {:induction false} Pow2Monotone(a: nat, b: nat)
    requires a <= b
    ensures Pow2(a) <= Pow2(b)
  {
    if a < b { Pow2Monotone(a, b - 1); }
  }

  lemma MulMonotone(d: nat, a: nat, b: nat)
    requires a <= b
    ensures d * a <= d * b
  {
    assert d * b == d * a + d * (b - a);
  }

  /** Later attempts never wait less; the 2^16 cap on the factor keeps it inside a `u32`. */
  lemma RawDelayMonotone(cfg: RetryConfig, a: nat, b: nat)
    requires a <= b
    ensures RawDelay(cfg, a) <= RawDelay(cfg, b) <= cfg.maxBackoff
    ensures Pow2(Min(SaturatingSub(b, 1), 16)) <= 65536
  {
    var m, n := Min(SaturatingSub(a, 1), 16), Min(SaturatingSub(b, 1), 16);
    Pow2Monotone(m, n);
    Pow2Monotone(n, 16);
    assert Pow2(4) == 16 && Pow2(8) == 256 && Pow2(12) == 4096 && Pow2(16) == 65536;
    MulMonotone(cfg.initialBackoff, Pow2(m), Pow2(n));
  }

  /** The delay starts at the initial backoff and doubles up to the cap; after the seventeenth it stays. */
  lemma {:induction false} DelayDoubles(cfg: RetryConfig, attempt: nat)
    requires attempt >= 1 && cfg.maxBackoff <= DURATION_MAX
    ensures RawDelay(cfg, 1) == Min(cfg.initialBackoff, cfg.maxBackoff)
    ensures attempt <= 16 ==> RawDelay(cfg, attempt + 1) == Min(2 * RawDelay(cfg, attempt), cfg.maxBackoff)
    ensures attempt >= 17 ==> RawDelay(cfg, attempt) == RawDelay(cfg, 17)
  {
    assert Pow2(0) == 1;
    if attempt <= 16 {
      var p := Pow2(attempt - 1);
      assert Pow2(attempt) == 2 * p;
      Doubled(cfg.initialBackoff, p);
    }
  }

  lemma Doubled(d: nat, p: nat)
    ensures d * (2 * p) == 2 * (d * p)
  {
  }

  // ----- what a trace may look like

  function Held(trace: seq<Event>): int {
    if trace == [] then 0
    else
      var e := trace[|trace| - 1];
      Held(trace[..|trace| - 1]) + (if e.Acquire? then 1 else if e.Release? then -1 else 0)
  }

  function Calls(trace: seq<Event>): nat {
    if trace == [] then 0 else Calls(trace[..|trace| - 1]) + if trace[|trace| - 1].Call? then 1 else 0
  }

  function Sleeps(trace: seq<Event>): nat {
    if trace == [] then 0 else Sleeps(trace[..|trace| - 1]) + if trace[|trace| - 1].Sleep? then 1 else 0
  }

  /**
   A permit is taken only when none is held and calls happen only under it, before the deadline; a
   sleep holds no permit, and the n-th sleep waits the n-th backoff delay capped by the time left.
   */
  ghost predicate Disciplined(trace: seq<Event>, cfg: RetryConfig, timeout: nat) {
    trace == [] ||
    var before, e := trace[..|trace| - 1], trace[|trace| - 1];
    && Disciplined(before, cfg, timeout)
    && match e
       case Acquire => Held(before) == 0
       case Release => Held(before) == 1
       case Call(at, _) => Held(before) == 1 && at < timeout
       case Sleep(delay, remaining) =>
         && Held(before) == 0
         && 0 < remaining <= timeout
         && delay == Min(RawDelay(cfg, Sleeps(before) + 1), remaining)
  }

  /** Errors that may not come again: time-outs, failed connections, and the statuses 408, 429 and 5xx. */
  predicate IsTransient(e: AiError) {
    || e == Timeout
    || (e.Http? && (e.error.isTimeout || e.error.isConnect || e.error.status.None?))
    || (e.Http? && e.error.status.Some? && (e.error.status.value in {408, 429} || e.error.status.value / 100 == 5))
  }

  /** A call is followed by another only if it failed in a way that may not come again. */
  ghost predicate OnlyTransientRetried(trace: seq<Event>) {
    forall i, j :: 0 <= i < j < |trace| && trace[i].Call? && trace[j].Call? ==>
      trace[i].reply.Err? && IsTransient(trace[i].reply.error)
  }

  lemma RetriedAreTransient(trace: seq<Event>)
    requires AllRetryable(trace) || exists reply :: LastReply(trace, reply)
    ensures OnlyTransientRetried(trace)
  {
    if !AllRetryable(trace) {
      var reply :| LastReply(trace, reply);
      var n :| 0 <= n < |trace| && trace[n].Call? && trace[n].reply == reply
        && AllRetryable(trace[..n]) && forall j :: n < j < |trace| ==> !trace[j].Call?;
      forall i, j | 0 <= i < j < |trace| && trace[i].Call? && trace[j].Call?
        ensures trace[i].reply.Err? && IsTransient(trace[i].reply.error)
      {
        assert trace[..n][i] == trace[i];
      }
    }
  }

  /** Every provider reply so far was an error worth retrying. */
  ghost predicate AllRetryable(trace: seq<Event>) {
    forall i :: 0 <= i < |trace| && trace[i].Call? ==> trace[i].reply.Err? && ShouldRetry(trace[i].reply.error)
  }

  /** `reply` answers the last call in `trace`, all earlier calls having failed retryably. */
  ghost predicate LastReply(trace: seq<Event>, reply: Reply) {
    exists i :: 0 <= i < |trace| && trace[i].Call? && trace[i].reply == reply
      && AllRetryable(trace[..i]) && forall j :: i < j < |trace| ==> !trace[j].Call?
  }

  /** The provider reply of a round; a call that outlives its timeout counts as a timeout. */
  function Answer(round: Round): Reply {
    if round.reply.Some? then round.reply.value else Err(Timeout)
  }

  /** The n-th call in the trace is the n-th round's. */
  ghost predicate Echoes(trace: seq<Event>, rounds: nat -> Round) {
    trace == [] ||
    var before, e := trace[..|trace| - 1], trace[|trace| - 1];
    && Echoes(before, rounds)
    && (e.Call? ==>
          var r := rounds(Calls(before));
          e == Call(r.elapsedWithPermit, if r.reply.Some? then r.reply.value else Err(Timeout)))
  }

  /** Why the loop may stop, other than by a provider reply, before the call of round `n`. */
  ghost predicate StopReason(rounds: nat -> Round, n: nat, timeout: nat, e: AiError) {
    var r := rounds(n);
    match e
    case Cancelled => r.cancelled || r.permit.TokenCancelled? || (n > 0 && rounds(n - 1).cancelledAsleep)
    case Timeout =>
      || r.elapsedAtTop >= timeout || r.permit.Expired? || r.elapsedWithPermit >= timeout
      || (n > 0 && rounds(n - 1).elapsedAfterCall >= timeout)
    case Other(m) => r.permit.Closed? && m == "ai client shutting down"
    case _ => false
  }

  lemma {:induction false} AppendAll(trace: seq<Event>, e: Event)
    ensures (trace + [e])[..|trace|] == trace
    ensures Held(trace + [e]) == Held(trace) + (if e.Acquire? then 1 else if e.Release? then -1 else 0)
    ensures Calls(trace + [e]) == Calls(trace) + if e.Call? then 1 else 0
    ensures Sleeps(trace + [e]) == Sleeps(trace) + if e.Sleep? then 1 else 0
  {
    assert (trace + [e])[..|trace|] == trace;
  }

  /** One attempt: take a permit, call, give the permit back. `None` means the loop ends with `Err(stop)`. */
  method Attempt(round: Round, timeout: nat, ghost cfg: RetryConfig, trace: seq<Event>)
    returns (out: seq<Event>, reply: Option<Reply>, stop: AiError)
    requires Disciplined(trace, cfg, timeout) && Held(trace) == 0
    ensures Disciplined(out, cfg, timeout) && Held(out) == 0
    ensures Calls(out) == Calls(trace) + if reply.Some? then 1 else 0
    ensures Sleeps(out) == Sleeps(trace)
    ensures AllRetryable(trace) ==> if reply.Some? then LastReply(out, reply.value) else AllRetryable(out)
    ensures reply.Some? ==> reply.value == Answer(round)
    ensures reply.None? ==> forall rounds: nat -> Round, n: nat :: rounds(n) == round ==>
            StopReason(rounds, n, timeout, stop)
    ensures forall rounds: nat -> Round :: rounds(Calls(trace)) == round && Echoes(trace, rounds) ==>
            Echoes(out, rounds)
    ensures AllRetryable(trace) && reply.Some? && reply.value.Err? && ShouldRetry(reply.value.error) ==>
            AllRetryable(out)
  {
    out, stop := trace, Timeout;
    match round.permit
    case Expired => return out, None, Timeout;
    case TokenCancelled => return out, None, Cancelled;
    case Closed => return out, None, Other("ai client shutting down");
    case Granted =>
      AppendAll(out, Acquire);
      out := out + [Acquire];
      var left := SaturatingSub(timeout, round.elapsedWithPermit);
      if left == 0 {
        AppendAll(out, Release);
        out := out + [Release];
        return out, None, Timeout;
      }
      var answer := Answer(round);
      reply := Some(answer);
      out := out + [Call(round.elapsedWithPermit, answer)];
      out := out + [Release];
      CallTrace(trace, round.elapsedWithPermit, answer, cfg, timeout);
      forall rounds: nat -> Round | rounds(Calls(trace)) == round && Echoes(trace, rounds) ensures Echoes(out, rounds) {
        CallEchoes(trace, round, rounds);
      }
  }

  lemma {:induction false} CallEchoes(trace: seq<Event>, round: Round, rounds: nat -> Round)
    requires rounds(Calls(trace)) == round && Echoes(trace, rounds)
    ensures Echoes(trace + [Acquire] + [Call(round.elapsedWithPermit, Answer(round))] + [Release], rounds)
  {
    var a := trace + [Acquire];
    var b := a + [Call(round.elapsedWithPermit, Answer(round))];
    AppendAll(trace, Acquire);
    AppendAll(a, Call(round.elapsedWithPermit, Answer(round)));
    AppendAll(b, Release);
  }

  /** A permit taken, one call made under it, and the permit given back. */
  lemma {:induction false} CallTrace(trace: seq<Event>, at: nat, reply: Reply, cfg: RetryConfig, timeout: nat)
    requires Disciplined(trace, cfg, timeout) && Held(trace) == 0 && at < timeout
    ensures var out := trace + [Acquire] + [Call(at, reply)] + [Release];
      && Disciplined(out, cfg, timeout) && Held(out) == 0
      && Calls(out) == Calls(trace) + 1 && Sleeps(out) == Sleeps(trace)
      && (AllRetryable(trace) ==> LastReply(out, reply))
      && (AllRetryable(trace) && reply.Err? && ShouldRetry(reply.error) ==> AllRetryable(out))
  {
    var a := trace + [Acquire];
    var b := a + [Call(at, reply)];
    var out := b + [Release];
    AppendAll(trace, Acquire);
    AppendAll(a, Call(at, reply));
    AppendAll(b, Release);
    if AllRetryable(trace) {
      var i := |trace| + 1;
      assert out[..i] == a;
      assert AllRetryable(a);
      assert out[i].Call? && out[i].reply == reply;
    }
  }

  /**
   The whole loop. It makes at most `maxRetries + 1` provider calls, starts none at or after the
   deadline, never sleeps on a permit and returns every permit; it returns the first success, and
   gives up on a provider error only if that error is not retryable or no retries are left.
   */
  method ChatWithRetries(cfg: RetryConfig, timeout: nat, rounds: nat -> Round) returns (reply: Reply, trace: seq<Event>)
    ensures Calls(trace) <= cfg.maxRetries + 1
    ensures Disciplined(trace, cfg, timeout) && Held(trace) == 0
    ensures Echoes(trace, rounds)
    ensures reply.Ok? ==> LastReply(trace, reply)
    ensures reply.Err? ==>
              || (LastReply(trace, reply) && (!ShouldRetry(reply.error) || Calls(trace) == cfg.maxRetries + 1))
              || (AllRetryable(trace) && Calls(trace) <= cfg.maxRetries
                  && StopReason(rounds, Calls(trace), timeout, reply.error))
    ensures OnlyTransientRetried(trace)
    ensures reply.Err? && IsTransient(reply.error) ==>
              || Calls(trace) == cfg.maxRetries + 1
              || (reply.error == Timeout && StopReason(rounds, Calls(trace), timeout, Timeout))
  {
    var attempt := 0;
    trace := [];
    while true
      invariant attempt <= cfg.maxRetries
      invariant Calls(trace) == attempt && Sleeps(trace) == attempt
      invariant Disciplined(trace, cfg, timeout) && Held(trace) == 0
      invariant AllRetryable(trace) && Echoes(trace, rounds)
      decreases cfg.maxRetries - attempt
    {
      var round := rounds(attempt);
      RetriedAreTransient(trace);
      if round.cancelled {
        return Err(Cancelled), trace;
      }
      var remaining := SaturatingSub(timeout, round.elapsedAtTop);
      if remaining == 0 {
        return Err(Timeout), trace;
      }
      var outcome, stop;
      trace, outcome, stop := Attempt(round, timeout, cfg, trace);
      if outcome.None? {
        RetriedAreTransient(trace);
        return Err(stop), trace;
      }
      reply := outcome.value;
      if reply.Ok? || !(attempt < cfg.maxRetries && ShouldRetry(reply.error)) {
        RetriedAreTransient(trace);
        return reply, trace;
      }
      attempt := attempt + 1;
      remaining := SaturatingSub(timeout, round.elapsedAfterCall);
      RetriedAreTransient(trace);
      if remaining == 0 {
        return Err(Timeout), trace;
      }
      ghost var before := trace;
      AppendAll(trace, Sleep(BackoffDelay(cfg, attempt, remaining), remaining));
      trace := trace + [Sleep(BackoffDelay(cfg, attempt, remaining), remaining)];
      RetriedAreTransient(trace);
      if round.cancelledAsleep {
        return Err(Cancelled), trace;
      }
    }
  }
}
