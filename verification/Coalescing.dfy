/**
 Request coalescing in the chat client, as a transition system. Callers with the same cache key
 share one flight: a leader task that calls the provider once, writes the reply, notifies, fills the
 cache and unregisters. Every section that the client runs under one lock is one step; callers,
 leaders and cancellations interleave freely.
 */
module Coalescing {
  import opened Wrappers
  import opened ChatErrors
  import opened RecencyList

  /** Where the leader task of a flight stands. */
  datatype Leader =
    | Calling
    | Computed(reply: Reply)
    | Wrote(reply: Reply)
    | Notified(reply: Reply)
    | Cached(reply: Reply)
    | Finished(reply: Reply)

  /**
   `InFlightChat` with its leader; a flight is identified by its index, as an `Arc` is by its address.
   `refused` records that the provider itself answered that the call was cancelled.
   */
  datatype Flight = Flight(key: CacheKey, cancelled: bool, result: Option<Reply>, notifies: nat, leader: Leader,
      refused: bool)

  /** `InFlightChatState`. */
  datatype Registration = Registration(flight: nat, waiters: nat)

  /** Where a caller of `chat` stands; `handle` is the notification count its `notified()` future was created at. */
  datatype Caller =
    | Started(key: CacheKey)
    | Probing(key: CacheKey)
    | Missed(key: CacheKey)
    | LoopTop(key: CacheKey, flight: nat)
    | Armed(key: CacheKey, flight: nat, handle: nat)
    | Waiting(key: CacheKey, flight: nat, handle: nat)
    | Leaving(key: CacheKey, flight: nat)
    | Served(key: CacheKey, flight: nat, reply: Reply)
    | Hit(key: CacheKey, reply: Reply)
    | Left(key: CacheKey, flight: nat)
    | Refused(key: CacheKey)

  datatype State = State(
    flights: seq<Flight>,
    inFlight: map<CacheKey, Registration>,
    callers: seq<Caller>,
    cancelRequested: set<nat>,
    cache: map<CacheKey, string>)

  const INIT := State([], map[], [], {}, map[])

  datatype Step =
    | Arrive(key: CacheKey)
    | RequestCancel(c: nat)
    | CheckToken(c: nat)
    | Probe(c: nat)
    | Join(c: nat)
    | Arm(c: nat)
    | Read(c: nat)
    | Wake(c: nat)
    | GiveUp(c: nat)
    | Leave(c: nat)
    | Compute(f: nat, reply: Reply, fromProvider: bool)
    | Write(f: nat)
    | Notify(f: nat)
    | CacheInsert(f: nat)
    | Unregister(f: nat)
    | Evict(key: CacheKey)

  predicate Enabled(s: State, step: Step) {
    match step
    case Arrive(_) => true
    case RequestCancel(c) => c < |s.callers|
    case CheckToken(c) => c < |s.callers| && s.callers[c].Started?
    case Probe(c) => c < |s.callers| && s.callers[c].Probing?
    case Join(c) => c < |s.callers| && s.callers[c].Missed?
    case Arm(c) => c < |s.callers| && s.callers[c].LoopTop? && s.callers[c].flight < |s.flights|
    case Read(c) => c < |s.callers| && s.callers[c].Armed? && s.callers[c].flight < |s.flights|
    case Wake(c) =>
      c < |s.callers| && s.callers[c].Waiting? && s.callers[c].flight < |s.flights|
      && s.flights[s.callers[c].flight].notifies > s.callers[c].handle
    case GiveUp(c) => c < |s.callers| && s.callers[c].Waiting? && c in s.cancelRequested
    case Leave(c) => c < |s.callers| && s.callers[c].Leaving? && s.callers[c].flight < |s.flights|
    case Compute(f, r, fromProvider) =>
      f < |s.flights| && s.flights[f].leader.Calling?
      && (r == Err(Cancelled) && !fromProvider ==> s.flights[f].cancelled)
    case Write(f) => f < |s.flights| && s.flights[f].leader.Computed?
    case Notify(f) => f < |s.flights| && s.flights[f].leader.Wrote?
    case CacheInsert(f) => f < |s.flights| && s.flights[f].leader.Notified?
    case Unregister(f) => f < |s.flights| && s.flights[f].leader.Cached?
    case Evict(_) => true
  }

  function Do(s: State, step: Step): State
    requires Enabled(s, step)
  {
    match step
    case Arrive(k) => s.(callers := s.callers + [Started(k)])
    case RequestCancel(c) => s.(cancelRequested := s.cancelRequested + {c})
    case CheckToken(c) =>
      SetCaller(s, c, if c in s.cancelRequested then Refused(s.callers[c].key) else Probing(s.callers[c].key))
    case Probe(c) =>
      var k := s.callers[c].key;
      SetCaller(s, c, if k in s.cache then Hit(k, Ok(s.cache[k])) else Missed(k))
    case Join(c) => DoJoin(s, c)
    case Arm(c) =>
      var w := s.callers[c];
      SetCaller(s, c, Armed(w.key, w.flight, s.flights[w.flight].notifies))
    case Read(c) =>
      var w := s.callers[c];
      var result := s.flights[w.flight].result;
      SetCaller(s, c, if result.Some? then Served(w.key, w.flight, result.value)
          else Waiting(w.key, w.flight, w.handle))
    case Wake(c) => SetCaller(s, c, LoopTop(s.callers[c].key, s.callers[c].flight))
    case GiveUp(c) => SetCaller(s, c, Leaving(s.callers[c].key, s.callers[c].flight))
    case Leave(c) => DoLeave(s, c)
    case Compute(f, r, fromProvider) =>
      SetFlight(s, f, s.flights[f].(leader := Computed(r), refused := fromProvider && r == Err(Cancelled)))
    case Write(f) =>
      var r := s.flights[f].leader.reply;
      SetFlight(s, f, s.flights[f].(result := Some(r), leader := Wrote(r)))
    case Notify(f) =>
      var r := s.flights[f].leader.reply;
      SetFlight(s, f, s.flights[f].(notifies := s.flights[f].notifies + 1, leader := Notified(r)))
    case CacheInsert(f) =>
      var r := s.flights[f].leader.reply;
      var t := SetFlight(s, f, s.flights[f].(leader := Cached(r)));
      if r.Ok? then t.(cache := t.cache[s.flights[f].key := r.text]) else t
    case Unregister(f) => DoUnregister(s, f)
    case Evict(k) => s.(cache := s.cache - {k})
  }

  function SetCaller(s: State, c: nat, w: Caller): State
    requires c < |s.callers|
  {
    s.(callers := s.callers[c := w])
  }

  function SetFlight(s: State, f: nat, x: Flight): State
    requires f < |s.flights|
  {
    s.(flights := s.flights[f := x])
  }

  /** Join the registered flight, or register a new one and start its leader. */
  function DoJoin(s: State, c: nat): State
    requires c < |s.callers|
  {
    var k := s.callers[c].key;
    if k in s.inFlight then
      var reg := s.inFlight[k];
      SetCaller(s, c, LoopTop(k, reg.flight)).(inFlight := s.inFlight[k := reg.(waiters := reg.waiters + 1)])
    else
      var f := |s.flights|;
      SetCaller(s, c, LoopTop(k, f)).(
        flights := s.flights + [Flight(k, false, None, 0, Calling, false)],
        inFlight := s.inFlight[k := Registration(f, 1)])
  }

  /** `cancel_in_flight_waiter`. */
  function DoLeave(s: State, c: nat): State
    requires c < |s.callers| && s.callers[c].Leaving? && s.callers[c].flight < |s.flights|
  {
    var k, f := s.callers[c].key, s.callers[c].flight;
    var t := SetCaller(s, c, Left(k, f));
    if k !in s.inFlight || s.inFlight[k].flight != f then t
    else
      var waiters := if s.inFlight[k].waiters > 0 then s.inFlight[k].waiters - 1 else 0;
      if waiters == 0 then SetFlight(t, f, t.flights[f].(cancelled := true)).(inFlight := t.inFlight - {k})
      else t.(inFlight := t.inFlight[k := Registration(f, waiters)])
  }

  /** The end of the leader task: remove the registration only if it is still this flight's. */
  function DoUnregister(s: State, f: nat): State
    requires f < |s.flights| && s.flights[f].leader.Cached?
  {
    var t := SetFlight(s, f, s.flights[f].(leader := Finished(s.flights[f].leader.reply)));
    var k := s.flights[f].key;
    if k in s.inFlight && s.inFlight[k].flight == f then t.(inFlight := t.inFlight - {k}) else t
  }

  // ----- the invariant

  /** `w` joined flight `f` and has not left it. */
  predicate Member(w: Caller, f: nat) {
    (w.LoopTop? || w.Armed? || w.Waiting? || w.Leaving? || w.Served?) && w.flight == f
  }

  /** `w` joined flight `f`, whatever became of it. */
  predicate Joined(w: Caller, f: nat) {
    Member(w, f) || (w.Left? && w.flight == f)
  }

  function Members(callers: seq<Caller>, f: nat): nat {
    if callers == [] then 0
    else Members(callers[..|callers| - 1], f) + if Member(callers[|callers| - 1], f) then 1 else 0
  }

  /** The leader may still be calling the provider on somebody's behalf. */
  predicate Live(x: Flight) {
    !x.cancelled && !x.leader.Finished?
  }

  ghost predicate Registrations(s: State) {
    && (forall k :: k in s.inFlight ==>
          var f := s.inFlight[k].flight;
          f < |s.flights| && s.flights[f].key == k && Live(s.flights[f]))
    && (forall f :: 0 <= f < |s.flights| && Live(s.flights[f]) ==>
          s.flights[f].key in s.inFlight && s.inFlight[s.flights[f].key].flight == f)
  }

  ghost predicate Waiters(s: State) {
    forall k :: k in s.inFlight ==>
      s.inFlight[k].waiters > 0 && s.inFlight[k].waiters == Members(s.callers, s.inFlight[k].flight)
  }

  ghost predicate Abandoned(s: State) {
    forall f, c :: 0 <= f < |s.flights| && s.flights[f].cancelled && 0 <= c < |s.callers| ==> !Member(s.callers[c], f)
  }

  ghost predicate LeaderOk(x: Flight) {
    && x.result == (if x.leader.Calling? || x.leader.Computed? then None else Some(x.leader.reply))
    && x.notifies == (if x.leader.Calling? || x.leader.Computed? || x.leader.Wrote? then 0 else 1)
    && (!x.leader.Calling? && x.leader.reply == Err(Cancelled) ==> x.cancelled || x.refused)
  }

  ghost predicate CallerOk(s: State, c: nat)
    requires c < |s.callers|
  {
    var w := s.callers[c];
    match w
    case LoopTop(k, f) => f < |s.flights| && s.flights[f].key == k
    case Armed(k, f, h) => f < |s.flights| && s.flights[f].key == k && (h > 0 ==> s.flights[f].result.Some?)
    case Waiting(k, f, h) => f < |s.flights| && s.flights[f].key == k && h == 0
    case Leaving(k, f) => f < |s.flights| && s.flights[f].key == k && c in s.cancelRequested
    case Served(k, f, r) => f < |s.flights| && s.flights[f].key == k && s.flights[f].result == Some(r)
    case Hit(k, r) => r.Ok? && Produced(s, k, r.text)
    case Left(k, f) => f < |s.flights| && s.flights[f].key == k && c in s.cancelRequested
    case Refused(k) => c in s.cancelRequested
    case _ => true
  }

  /** Some flight for `k` ended in this text. */
  ghost predicate Produced(s: State, k: CacheKey, text: string) {
    exists f :: 0 <= f < |s.flights| && s.flights[f].key == k && s.flights[f].result == Some(Ok(text))
  }

  ghost predicate Callers(s: State) {
    forall c :: 0 <= c < |s.callers| ==> CallerOk(s, c)
  }

  ghost predicate Leaders(s: State) {
    forall f :: 0 <= f < |s.flights| ==> LeaderOk(s.flights[f])
  }

  ghost predicate CacheOk(s: State) {
    forall k :: k in s.cache ==> Produced(s, k, s.cache[k])
  }

  ghost predicate Inv(s: State) {
    Registrations(s) && Waiters(s) && Abandoned(s) && Leaders(s) && Callers(s) && CacheOk(s)
  }

  // ----- counting members

  lemma {:induction false} MembersUpdate(callers: seq<Caller>, c: nat, w: Caller, f: nat)
    requires c < |callers|
    ensures Members(callers[c := w], f) + (if Member(callers[c], f) then 1 else 0)
         == Members(callers, f) + (if Member(w, f) then 1 else 0)
  {
    var n := |callers| - 1;
    if c == n {
      assert callers[c := w][..n] == callers[..n];
    } else {
      assert callers[c := w][..n] == callers[..n][c := w];
      MembersUpdate(callers[..n], c, w, f);
    }
  }

  lemma {:induction false} MembersZero(callers: seq<Caller>, f: nat)
    ensures Members(callers, f) == 0 <==> forall c :: 0 <= c < |callers| ==> !Member(callers[c], f)
  {
    if callers != [] {
      var n := |callers| - 1;
      MembersZero(callers[..n], f);
      assert forall c :: 0 <= c < n ==> callers[..n][c] == callers[c];
    }
  }

  lemma {:induction false} MembersArrive(callers: seq<Caller>, k: CacheKey, f: nat)
    ensures Members(callers + [Started(k)], f) == Members(callers, f)
  {
    assert (callers + [Started(k)])[..|callers|] == callers;
  }

  // ----- preservation, step by step

  /** Steps of one caller that change neither its membership nor any flight. */
  lemma CallerStep(s: State, c: nat, w: Caller)
    requires Inv(s) && c < |s.callers|
    requires forall f :: Member(s.callers[c], f) <==> Member(w, f)
    requires CallerOk(SetCaller(s, c, w), c)
    ensures Inv(SetCaller(s, c, w))
  {
    var t := SetCaller(s, c, w);
    forall k | k in t.inFlight
      ensures t.inFlight[k].waiters > 0 && t.inFlight[k].waiters == Members(t.callers, t.inFlight[k].flight)
    {
      MembersUpdate(s.callers, c, w, s.inFlight[k].flight);
    }
    forall f, d | 0 <= f < |t.flights| && t.flights[f].cancelled && 0 <= d < |t.callers|
      ensures !Member(t.callers[d], f)
    {
      assert !Member(s.callers[d], f);
    }
    assert Callers(t) by {
      forall d | 0 <= d < |t.callers|
        ensures CallerOk(t, d)
      {
        if d != c { assert CallerOk(s, d); KeepsCaller(s, t, d); }
      }
    }
    assert CacheOk(t) by {
      forall k | k in t.cache
        ensures Produced(t, k, t.cache[k])
      {
        assert Produced(s, k, s.cache[k]); KeepsProduced(s, t, k, s.cache[k]);
      }
    }
  }

  /** `t` extends `s`: flights keep their key and, once written, their result. */
  ghost predicate Extends(s: State, t: State) {
    && |s.flights| <= |t.flights|
    && s.cancelRequested <= t.cancelRequested
    && forall f :: 0 <= f < |s.flights| ==>
         t.flights[f].key == s.flights[f].key
         && (s.flights[f].result.Some? ==> t.flights[f].result == s.flights[f].result)
  }

  lemma KeepsProduced(s: State, t: State, k: CacheKey, text: string)
    requires Extends(s, t) && Produced(s, k, text)
    ensures Produced(t, k, text)
  {
    var f :| 0 <= f < |s.flights| && s.flights[f].key == k && s.flights[f].result == Some(Ok(text));
    assert t.flights[f].result == Some(Ok(text));
  }

  lemma KeepsCaller(s: State, t: State, c: nat)
    requires Extends(s, t) && c < |s.callers| && c < |t.callers| && t.callers[c] == s.callers[c] && CallerOk(s, c)
    ensures CallerOk(t, c)
  {
    var w := s.callers[c];
    if w.Hit? { KeepsProduced(s, t, w.key, w.reply.text); }
  }

  /** Everything that only depends on flights growing carries over. */
  lemma ExtendsKeeps(s: State, t: State)
    requires Callers(s) && Extends(s, t) && |s.callers| <= |t.callers|
    requires forall c :: 0 <= c < |s.callers| && t.callers[c] != s.callers[c] ==> CallerOk(t, c)
    requires forall c :: |s.callers| <= c < |t.callers| ==> CallerOk(t, c)
    ensures Callers(t)
  {
    forall c | 0 <= c < |t.callers| ensures CallerOk(t, c) {
      if c < |s.callers| && t.callers[c] == s.callers[c] {
        assert CallerOk(s, c);
        KeepsCaller(s, t, c);
      }
    }
  }

  lemma CacheKept(s: State, t: State)
    requires CacheOk(s) && Extends(s, t) && t.cache == s.cache
    ensures CacheOk(t)
  {
    forall k | k in t.cache ensures Produced(t, k, t.cache[k]) {
      assert Produced(s, k, s.cache[k]);
      KeepsProduced(s, t, k, s.cache[k]);
    }
  }

  /** A leader step that keeps the flight live or dead as it was. */
  lemma FlightStep(s: State, f: nat, x: Flight)
    requires Inv(s) && f < |s.flights|
    requires LeaderOk(x) && x.key == s.flights[f].key && x.cancelled == s.flights[f].cancelled
    requires x.leader.Finished? == s.flights[f].leader.Finished?
    requires s.flights[f].result.Some? ==> x.result == s.flights[f].result
    ensures Inv(SetFlight(s, f, x))
  {
    var t := SetFlight(s, f, x);
    assert Extends(s, t);
    ExtendsKeeps(s, t);
    CacheKept(s, t);
    forall g, c | 0 <= g < |t.flights| && t.flights[g].cancelled && 0 <= c < |t.callers|
      ensures !Member(t.callers[c], g)
    {
      assert s.flights[g].cancelled;
    }
  }

  lemma ArriveKeeps(s: State, k: CacheKey)
    requires Inv(s)
    ensures Inv(s.(callers := s.callers + [Started(k)]))
  {
    var t := s.(callers := s.callers + [Started(k)]);
    ExtendsKeeps(s, t);
    CacheKept(s, t);
    forall x | x in t.inFlight
      ensures t.inFlight[x].waiters > 0 && t.inFlight[x].waiters == Members(t.callers, t.inFlight[x].flight)
    {
      MembersArrive(s.callers, k, s.inFlight[x].flight);
    }
  }

  lemma RequestKeeps(s: State, c: nat)
    requires Inv(s)
    ensures Inv(s.(cancelRequested := s.cancelRequested + {c}))
  {
    var t := s.(cancelRequested := s.cancelRequested + {c});
    ExtendsKeeps(s, t);
    CacheKept(s, t);
  }

  lemma EvictKeeps(s: State, cache: map<CacheKey, string>)
    requires Inv(s) && forall k :: k in cache ==> Produced(s, k, cache[k])
    ensures Inv(s.(cache := cache))
  {
    var t := s.(cache := cache);
    ExtendsKeeps(s, t);
    forall k | k in cache ensures Produced(t, k, cache[k]) { KeepsProduced(s, t, k, cache[k]); }
  }

  lemma CacheInsertKeeps(s: State, f: nat)
    requires Inv(s) && Enabled(s, CacheInsert(f))
    ensures Inv(Do(s, CacheInsert(f)))
  {
    var x := s.flights[f];
    FlightStep(s, f, x.(leader := Cached(x.leader.reply)));
    var t := SetFlight(s, f, x.(leader := Cached(x.leader.reply)));
    if x.leader.reply.Ok? {
      var cache := t.cache[x.key := x.leader.reply.text];
      assert t.flights[f].result == Some(Ok(x.leader.reply.text));
      assert Produced(t, x.key, x.leader.reply.text);
      forall k | k in cache ensures Produced(t, k, cache[k]) {
        if k != x.key { assert Produced(t, k, t.cache[k]); }
      }
      EvictKeeps(t, cache);
    }
  }

  /** No caller belongs to a flight that does not exist yet. */
  lemma NewFlightEmpty(s: State)
    requires Callers(s)
    ensures Members(s.callers, |s.flights|) == 0
  {
    forall c | 0 <= c < |s.callers| ensures !Member(s.callers[c], |s.flights|) { assert CallerOk(s, c); }
    MembersZero(s.callers, |s.flights|);
  }

  lemma JoinWaiters(s: State, c: nat)
    requires Inv(s) && Enabled(s, Join(c))
    ensures Waiters(Do(s, Join(c)))
  {
    var t := Do(s, Join(c));
    NewFlightEmpty(s);
    forall k | k in t.inFlight
      ensures t.inFlight[k].waiters > 0 && t.inFlight[k].waiters == Members(t.callers, t.inFlight[k].flight)
    {
      MembersUpdate(s.callers, c, t.callers[c], t.inFlight[k].flight);
    }
  }

  lemma JoinKeeps(s: State, c: nat)
    requires Inv(s) && Enabled(s, Join(c))
    ensures Inv(Do(s, Join(c)))
  {
    var t := Do(s, Join(c));
    JoinWaiters(s, c);
    JoinRegistrations(s, c);
    JoinAbandons(s, c);
    StepExtends(s, Join(c));
    assert CallerOk(t, c);
    hide Waiters, Registrations, Abandoned, Extends;
    ExtendsKeeps(s, t);
    CacheKept(s, t);
  }

  lemma JoinAbandons(s: State, c: nat)
    requires Inv(s) && Enabled(s, Join(c))
    ensures Abandoned(Do(s, Join(c)))
  {
    JoinTarget(s, c);
    NewFlightEmpty(s);
    MembersZero(s.callers, |s.flights|);
    hide Registrations, Waiters, Leaders, Callers, CacheOk;
  }

  lemma JoinTarget(s: State, c: nat)
    requires Inv(s) && Enabled(s, Join(c))
    ensures var t := Do(s, Join(c));
      t.callers[c].LoopTop? && t.callers[c].flight < |t.flights| && !t.flights[t.callers[c].flight].cancelled
  {
  }

  lemma JoinRegistrations(s: State, c: nat)
    requires Registrations(s) && Enabled(s, Join(c))
    ensures Registrations(Do(s, Join(c)))
  {
  }

  lemma LeaveWaiters(s: State, c: nat)
    requires Inv(s) && Enabled(s, Leave(c))
    ensures Waiters(Do(s, Leave(c)))
  {
    var t := Do(s, Leave(c));
    forall k | k in t.inFlight
      ensures t.inFlight[k].waiters > 0 && t.inFlight[k].waiters == Members(t.callers, t.inFlight[k].flight)
    {
      MembersUpdate(s.callers, c, t.callers[c], t.inFlight[k].flight);
      assert CallerOk(s, c);
    }
  }

  lemma LeaveAbandons(s: State, c: nat)
    requires Inv(s) && Enabled(s, Leave(c))
    ensures Abandoned(Do(s, Leave(c)))
  {
    var t, g := Do(s, Leave(c)), s.callers[c].flight;
    forall f, d | 0 <= f < |t.flights| && t.flights[f].cancelled && 0 <= d < |t.callers|
      ensures !Member(t.callers[d], f)
    {
      if s.flights[f].cancelled {
        assert !Member(s.callers[d], f);
      } else {
        assert f == g && s.inFlight[s.callers[c].key].waiters == 1;
        MembersUpdate(s.callers, c, t.callers[c], g);
        MembersZero(t.callers, g);
      }
    }
  }

  lemma LeaveRegistrations(s: State, c: nat)
    requires Registrations(s) && Enabled(s, Leave(c))
    ensures Registrations(Do(s, Leave(c)))
  {
  }

  lemma LeaveKeeps(s: State, c: nat)
    requires Inv(s) && Enabled(s, Leave(c))
    ensures Inv(Do(s, Leave(c)))
  {
    var t := Do(s, Leave(c));
    LeaveWaiters(s, c);
    LeaveAbandons(s, c);
    LeaveRegistrations(s, c);
    assert CallerOk(s, c);
    StepExtends(s, Leave(c));
    hide Waiters, Registrations, Abandoned, Extends;
    ExtendsKeeps(s, t);
    CacheKept(s, t);
  }

  lemma UnregisterKeeps(s: State, f: nat)
    requires Inv(s) && Enabled(s, Unregister(f))
    ensures Inv(Do(s, Unregister(f)))
  {
    hide Registrations, Waiters, Abandoned, Leaders, Callers, CacheOk, Extends;
    var t := Do(s, Unregister(f));
    StepExtends(s, Unregister(f));
    UnregisterRegistrations(s, f);
    UnregisterCounts(s, f);
    UnregisterOutcome(s, f);
    ExtendsKeeps(s, t);
    CacheKept(s, t);
  }

  lemma UnregisterCounts(s: State, f: nat)
    requires Waiters(s) && Abandoned(s) && Enabled(s, Unregister(f))
    ensures Waiters(Do(s, Unregister(f))) && Abandoned(Do(s, Unregister(f)))
  {
  }

  lemma UnregisterOutcome(s: State, f: nat)
    requires Leaders(s) && Enabled(s, Unregister(f))
    ensures Leaders(Do(s, Unregister(f)))
  {
    assert LeaderOk(s.flights[f]);
  }

  lemma UnregisterRegistrations(s: State, f: nat)
    requires Registrations(s) && Enabled(s, Unregister(f))
    ensures Registrations(Do(s, Unregister(f)))
  {
  }

  lemma CallerSteps(s: State, step: Step)
    requires Inv(s) && Enabled(s, step)
    requires step.CheckToken? || step.Probe? || step.Arm? || step.Read? || step.Wake? || step.GiveUp?
    ensures Inv(Do(s, step))
  {
    var t := Do(s, step);
    var c := step.c;
    assert CallerOk(s, c);
    assert t == SetCaller(s, c, t.callers[c]);
    if step.Probe? && t.callers[c].Hit? {
      assert Produced(s, s.callers[c].key, s.cache[s.callers[c].key]);
      KeepsProduced(s, t, s.callers[c].key, s.cache[s.callers[c].key]);
    }
    assert CallerOk(t, c);
    CallerStep(s, c, t.callers[c]);
  }

  lemma LeaderSteps(s: State, step: Step)
    requires Inv(s) && Enabled(s, step)
    requires step.Compute? || step.Write? || step.Notify?
    ensures Inv(Do(s, step))
  {
    assert LeaderOk(s.flights[step.f]);
    FlightStep(s, step.f, Do(s, step).flights[step.f]);
    assert Do(s, step) == SetFlight(s, step.f, Do(s, step).flights[step.f]);
  }

  /** Every step keeps the invariant. */
  lemma Preserved(s: State, step: Step)
    requires Inv(s) && Enabled(s, step)
    ensures Inv(Do(s, step))
  {
    hide Inv;
    match step
    case Arrive(k) => ArriveKeeps(s, k);
    case RequestCancel(c) => RequestKeeps(s, c);
    case CheckToken(_) => CallerSteps(s, step);
    case Probe(_) => CallerSteps(s, step);
    case Join(c) => JoinKeeps(s, c);
    case Arm(_) => CallerSteps(s, step);
    case Read(_) => CallerSteps(s, step);
    case Wake(_) => CallerSteps(s, step);
    case GiveUp(_) => CallerSteps(s, step);
    case Leave(c) => LeaveKeeps(s, c);
    case Compute(_, _, _) => LeaderSteps(s, step);
    case Write(_) => LeaderSteps(s, step);
    case Notify(_) => LeaderSteps(s, step);
    case CacheInsert(f) => CacheInsertKeeps(s, f);
    case Unregister(f) => UnregisterKeeps(s, f);
    case Evict(k) => EvictStep(s, k);
  }

  lemma EvictStep(s: State, k: CacheKey)
    requires Inv(s)
    ensures Inv(Do(s, Evict(k)))
  {
    EvictKeeps(s, s.cache - {k});
  }

  // ----- whole runs

  /** `states` is a run: it starts empty and each state follows from the one before by an enabled step. */
  ghost predicate IsRun(states: seq<State>, steps: seq<Step>) {
    && |states| == |steps| + 1
    && states[0] == INIT
    && forall i :: 0 <= i < |steps| ==> Enabled(states[i], steps[i]) && states[i + 1] == Do(states[i], steps[i])
  }

  lemma {:induction false} RunInvariant(states: seq<State>, steps: seq<Step>, i: nat)
    requires IsRun(states, steps) && i < |states|
    ensures Inv(states[i])
  {
    if i > 0 {
      RunInvariant(states, steps, i - 1);
      Preserved(states[i - 1], steps[i - 1]);
    }
  }

  /** In every interleaving: a key has at most one flight that is neither finished nor cancelled. */
  lemma OneLeaderPerKey(states: seq<State>, steps: seq<Step>, i: nat, f: nat, g: nat)
    requires IsRun(states, steps) && i < |states|
    requires f < |states[i].flights| && g < |states[i].flights|
    requires states[i].flights[f].key == states[i].flights[g].key
    requires Live(states[i].flights[f]) && Live(states[i].flights[g])
    ensures f == g
  {
    RunInvariant(states, steps, i);
  }

  lemma CancelledMeansAllLeft(states: seq<State>, steps: seq<Step>, i: nat, f: nat, c: nat)
    requires IsRun(states, steps) && i < |states|
    requires f < |states[i].flights| && states[i].flights[f].cancelled
    requires c < |states[i].callers| && Joined(states[i].callers[c], f)
    ensures states[i].callers[c].Left? && c in states[i].cancelRequested
  {
    RunInvariant(states, steps, i);
    assert CallerOk(states[i], c);
    assert !Member(states[i].callers[c], f);
  }

  /** One step's worth of `OnlyOwnerUnregisters`. */
  lemma RegistrationLost(s: State, step: Step, k: CacheKey)
    requires Waiters(s) && Callers(s) && Enabled(s, step) && k in s.inFlight
    requires k !in Do(s, step).inFlight || Do(s, step).inFlight[k].flight != s.inFlight[k].flight
    ensures var t, f := Do(s, step), s.inFlight[k].flight;
      && k !in t.inFlight
      && (step == Unregister(f)
          || (step.Leave? && s.callers[step.c].flight == f && Members(s.callers, f) == 1 && t.flights[f].cancelled))
  {
    if step.Leave? {
      assert CallerOk(s, step.c);
    } else if step.Unregister? {
      hide Waiters, Callers;
    }
  }

  /**
   A registration disappears or changes hands only when its own leader unregisters it or when its
   last remaining caller leaves; no other leader ever removes it.
   */
  lemma OnlyOwnerUnregisters(states: seq<State>, steps: seq<Step>, i: nat, k: CacheKey)
    requires IsRun(states, steps) && i < |steps|
    requires k in states[i].inFlight
    requires k !in states[i + 1].inFlight || states[i + 1].inFlight[k].flight != states[i].inFlight[k].flight
    ensures var s, t, f := states[i], states[i + 1], states[i].inFlight[k].flight;
      && k !in t.inFlight
      && (steps[i] == Unregister(f)
          || (steps[i].Leave? && s.callers[steps[i].c].flight == f && Members(s.callers, f) == 1
          && t.flights[f].cancelled))
  {
    RunInvariant(states, steps, i);
    RegistrationLost(states[i], steps[i], k);
  }

  /** No lost wakeup: once the leader has notified, every parked caller can wake. */
  lemma NoLostWakeup(states: seq<State>, steps: seq<Step>, i: nat, c: nat)
    requires IsRun(states, steps) && i < |states| && c < |states[i].callers|
    requires states[i].callers[c].Waiting?
    ensures states[i].callers[c].flight < |states[i].flights|
    ensures states[i].flights[states[i].callers[c].flight].leader.Notified?
         || states[i].flights[states[i].callers[c].flight].leader.Cached?
         || states[i].flights[states[i].callers[c].flight].leader.Finished?
         ==> Enabled(states[i], Wake(c))
  {
    RunInvariant(states, steps, i);
    assert CallerOk(states[i], c);
    assert LeaderOk(states[i].flights[states[i].callers[c].flight]);
  }

  /** Callers served by the same flight got the same reply, which is what its leader computed. */
  lemma SameReply(states: seq<State>, steps: seq<Step>, i: nat, c: nat, d: nat)
    requires IsRun(states, steps) && i < |states| && c < |states[i].callers| && d < |states[i].callers|
    requires states[i].callers[c].Served? && states[i].callers[d].Served?
    requires states[i].callers[c].flight == states[i].callers[d].flight
    ensures states[i].callers[c].reply == states[i].callers[d].reply
    ensures states[i].callers[c].flight < |states[i].flights|
    ensures var l := states[i].flights[states[i].callers[c].flight].leader;
      !l.Calling? && !l.Computed? && l.reply == states[i].callers[c].reply
  {
    RunInvariant(states, steps, i);
    assert CallerOk(states[i], c) && CallerOk(states[i], d);
    assert LeaderOk(states[i].flights[states[i].callers[c].flight]);
  }

  lemma StepExtends(s: State, step: Step)
    requires Leaders(s) && Enabled(s, step)
    ensures Extends(s, Do(s, step))
  {
    match step
    case Compute(f, _, _) => assert LeaderOk(s.flights[f]);
    case Write(f) => assert LeaderOk(s.flights[f]);
    case _ =>
  }

  /** A flight's result is written once and never changes. */
  lemma {:induction false} WriteOnce(states: seq<State>, steps: seq<Step>, i: nat, j: nat, f: nat)
    requires IsRun(states, steps) && i <= j < |states|
    requires f < |states[i].flights| && states[i].flights[f].result.Some?
    ensures f < |states[j].flights| && states[j].flights[f].result == states[i].flights[f].result
  {
    hide Do, Enabled, Inv;
    if i < j {
      WriteOnce(states, steps, i, j - 1, f);
      ResultStays(states, steps, j - 1, f);
    }
  }

  lemma ResultStays(states: seq<State>, steps: seq<Step>, i: nat, f: nat)
    requires IsRun(states, steps) && i < |steps|
    requires f < |states[i].flights| && states[i].flights[f].result.Some?
    ensures f < |states[i + 1].flights| && states[i + 1].flights[f].result == states[i].flights[f].result
  {
    hide Do, Enabled, Registrations, Waiters, Abandoned, Leaders, Callers, CacheOk;
    RunInvariant(states, steps, i);
    StepExtends(states[i], steps[i]);
  }

  /** No caller is told that the call was cancelled on account of others: then the provider itself said so. */
  lemma NotCancelledByOthers(states: seq<State>, steps: seq<Step>, i: nat, c: nat)
    requires IsRun(states, steps) && i < |states| && c < |states[i].callers|
    requires states[i].callers[c].Served? && states[i].callers[c].reply == Err(Cancelled)
    ensures var f := states[i].callers[c].flight;
            f < |states[i].flights| && !states[i].flights[f].cancelled && states[i].flights[f].refused
  {
    RunInvariant(states, steps, i);
    var f := states[i].callers[c].flight;
    assert CallerOk(states[i], c);
    assert LeaderOk(states[i].flights[f]);
    assert Member(states[i].callers[c], f);
  }

  /** Only successful replies of flights for that very key are ever in the cache or served from it. */
  lemma CacheHoldsSuccesses(states: seq<State>, steps: seq<Step>, i: nat, k: CacheKey)
    requires IsRun(states, steps) && i < |states|
    ensures k in states[i].cache ==> Produced(states[i], k, states[i].cache[k])
    ensures forall c :: 0 <= c < |states[i].callers| && states[i].callers[c].Hit? ==>
              var w := states[i].callers[c]; w.reply.Ok? && Produced(states[i], w.key, w.reply.text)
  {
    RunInvariant(states, steps, i);
    forall c | 0 <= c < |states[i].callers| && states[i].callers[c].Hit?
      ensures var w := states[i].callers[c]; w.reply.Ok? && Produced(states[i], w.key, w.reply.text)
    {
      assert CallerOk(states[i], c);
    }
  }

  /** The step takes out what the cache holds for `k`, or writes it again. */
  predicate Overwrites(s: State, step: Step, k: CacheKey)
    requires Enabled(s, step)
  {
    step == Evict(k) || (step.CacheInsert? && s.flights[step.f].key == k)
  }

  lemma CachedStays(s: State, step: Step, k: CacheKey)
    requires Enabled(s, step) && !Overwrites(s, step, k) && k in s.cache
    ensures k in Do(s, step).cache && Do(s, step).cache[k] == s.cache[k]
  {
  }

  /** A success reaches the cache, and stays there until it is evicted or written again. */
  lemma {:induction false} SuccessIsCached(states: seq<State>, steps: seq<Step>, j: nat, i: nat, f: nat, text: string)
    requires IsRun(states, steps) && j < i < |states| && steps[j] == CacheInsert(f)
    requires f < |states[j].flights| && states[j].flights[f].result == Some(Ok(text))
    requires forall m :: j < m < i ==> !Overwrites(states[m], steps[m], states[j].flights[f].key)
    ensures var k := states[j].flights[f].key; k in states[i].cache && states[i].cache[k] == text
  {
    hide Inv;
    var k := states[j].flights[f].key;
    if i == j + 1 {
      RunInvariant(states, steps, j);
      LeaderHolds(states[j], f);
      InsertWrites(states[j], f, text);
    } else {
      hide Do, Enabled;
      SuccessIsCached(states, steps, j, i - 1, f, text);
      assert !Overwrites(states[i - 1], steps[i - 1], k);
      CachedStays(states[i - 1], steps[i - 1], k);
    }
  }

  lemma LeaderHolds(s: State, f: nat)
    requires Inv(s) && f < |s.flights|
    ensures LeaderOk(s.flights[f])
  {
  }

  lemma InsertWrites(s: State, f: nat, text: string)
    requires Enabled(s, CacheInsert(f)) && LeaderOk(s.flights[f]) && s.flights[f].result == Some(Ok(text))
    ensures var t, k := Do(s, CacheInsert(f)), s.flights[f].key; k in t.cache && t.cache[k] == text
  {
  }

  /** A caller that comes while a success is cached is served from the cache and starts no flight. */
  lemma {:induction false} CachedIsServed(
    states: seq<State>, steps: seq<Step>, j: nat, i: nat, f: nat, text: string, c: nat)
    requires IsRun(states, steps) && j < i < |steps| && steps[j] == CacheInsert(f)
    requires f < |states[j].flights| && states[j].flights[f].result == Some(Ok(text))
    requires forall m :: j < m < i ==> !Overwrites(states[m], steps[m], states[j].flights[f].key)
    requires steps[i] == Probe(c) && c < |states[i].callers| && states[i].callers[c].key == states[j].flights[f].key
    ensures states[i + 1].callers[c] == Hit(states[j].flights[f].key, Ok(text))
    ensures states[i + 1].flights == states[i].flights && states[i + 1].inFlight == states[i].inFlight
  {
    SuccessIsCached(states, steps, j, i, f, text);
  }

  /** A caller that has its answer, or has given up, takes no further step. */
  predicate IsDone(w: Caller) {
    w.Hit? || w.Served? || w.Left? || w.Refused?
  }

  lemma StepKeepsCaller(s: State, step: Step, c: nat)
    requires Enabled(s, step) && c < |s.callers|
    ensures var t := Do(s, step);
            && c < |t.callers| && t.callers[c].key == s.callers[c].key
            && (IsDone(s.callers[c]) ==> t.callers[c] == s.callers[c])
  {
  }

  /** Callers keep their keys, and keep what they end with. */
  lemma {:induction false} CallerStays(states: seq<State>, steps: seq<Step>, i: nat, j: nat, c: nat)
    requires IsRun(states, steps) && i <= j < |states| && c < |states[i].callers|
    ensures c < |states[j].callers| && states[j].callers[c].key == states[i].callers[c].key
    ensures IsDone(states[i].callers[c]) ==> states[j].callers[c] == states[i].callers[c]
  {
    hide Do, Enabled;
    if i < j {
      CallerStays(states, steps, i, j - 1, c);
      StepKeepsCaller(states[j - 1], steps[j - 1], c);
    }
  }

  // ----- where replies come from

  /** The step is the one that ends the provider call of flight `f` with this reply. */
  predicate Computes(step: Step, f: nat, reply: Reply) {
    step.Compute? && step.f == f && step.reply == reply
  }

  lemma ReplyFrom(s: State, step: Step, f: nat)
    requires Enabled(s, step) && f < |Do(s, step).flights| && !Do(s, step).flights[f].leader.Calling?
    ensures var reply := Do(s, step).flights[f].leader.reply;
            || Computes(step, f, reply)
            || (f < |s.flights| && !s.flights[f].leader.Calling? && s.flights[f].leader.reply == reply)
  {
  }

  lemma {:induction false} LeaderReplyComputed(states: seq<State>, steps: seq<Step>, i: nat, f: nat)
    requires IsRun(states, steps) && i < |states| && f < |states[i].flights| && !states[i].flights[f].leader.Calling?
    ensures exists j :: 0 <= j < i && Computes(steps[j], f, states[i].flights[f].leader.reply)
  {
    hide Do, Enabled;
    if i > 0 {
      ReplyFrom(states[i - 1], steps[i - 1], f);
      if !Computes(steps[i - 1], f, states[i].flights[f].leader.reply) {
        LeaderReplyComputed(states, steps, i - 1, f);
      }
    }
  }

  /** What a caller is served is what the provider call of its flight ended with. */
  lemma {:induction false} ServedWasComputed(states: seq<State>, steps: seq<Step>, i: nat, c: nat)
    requires IsRun(states, steps) && i < |states| && c < |states[i].callers| && states[i].callers[c].Served?
    ensures exists j :: 0 <= j < i && Computes(steps[j], states[i].callers[c].flight, states[i].callers[c].reply)
  {
    hide Do, Enabled;
    SameReply(states, steps, i, c, c);
    LeaderReplyComputed(states, steps, i, states[i].callers[c].flight);
  }

  lemma CallingEnds(s: State, step: Step, f: nat)
    requires Enabled(s, step) && f < |s.flights|
    ensures f < |Do(s, step).flights|
    ensures !s.flights[f].leader.Calling? || (step.Compute? && step.f == f) ==>
              !Do(s, step).flights[f].leader.Calling?
  {
  }

  /** The provider is called once for each flight. */
  lemma {:induction false} OneCallPerFlight(states: seq<State>, steps: seq<Step>, j: nat, m: nat, f: nat)
    requires IsRun(states, steps) && j < m < |steps| && steps[j].Compute? && steps[j].f == f
    ensures !(steps[m].Compute? && steps[m].f == f)
  {
    NoLongerCalling(states, steps, j, m, f);
  }

  lemma {:induction false} NoLongerCalling(states: seq<State>, steps: seq<Step>, j: nat, m: nat, f: nat)
    requires IsRun(states, steps) && j < m < |states| && steps[j].Compute? && steps[j].f == f
    ensures f < |states[m].flights| && !states[m].flights[f].leader.Calling?
  {
    if m == j + 1 {
      CallingEnds(states[j], steps[j], f);
    } else {
      hide Do, Enabled;
      NoLongerCalling(states, steps, j, m - 1, f);
      CallingEnds(states[m - 1], steps[m - 1], f);
    }
  }

  // ----- cancellation

  lemma RequestedBy(s: State, step: Step, c: nat)
    requires Enabled(s, step)
    ensures c in Do(s, step).cancelRequested <==> c in s.cancelRequested || step == RequestCancel(c)
  {
  }

  /** A token is cancelled exactly if that was requested. */
  lemma {:induction false} RequestedIff(states: seq<State>, steps: seq<Step>, i: nat, c: nat)
    requires IsRun(states, steps) && i < |states|
    ensures c in states[i].cancelRequested <==> exists j :: 0 <= j < i && steps[j] == RequestCancel(c)
  {
    hide Do, Enabled;
    if i > 0 {
      RequestedIff(states, steps, i - 1, c);
      RequestedBy(states[i - 1], steps[i - 1], c);
    }
  }

  /** A caller whose token was cancelled before it was looked at is refused, and any other goes on to the cache. */
  lemma {:induction false} RefusedIff(states: seq<State>, steps: seq<Step>, i: nat, c: nat)
    requires IsRun(states, steps) && i < |steps| && steps[i] == CheckToken(c)
    ensures c < |states[i].callers| && c < |states[i + 1].callers|
    ensures states[i + 1].callers[c] ==
            if exists j :: 0 <= j < i && steps[j] == RequestCancel(c) then Refused(states[i].callers[c].key)
            else Probing(states[i].callers[c].key)
  {
    RequestedIff(states, steps, i, c);
  }

  /** A caller reports cancellation of its own accord only if its token was cancelled. */
  lemma LeavesOnlyOnRequest(states: seq<State>, steps: seq<Step>, i: nat, c: nat)
    requires IsRun(states, steps) && i < |states| && c < |states[i].callers|
    requires states[i].callers[c].Left? || states[i].callers[c].Refused? || states[i].callers[c].Leaving?
    ensures c in states[i].cancelRequested
  {
    RunInvariant(states, steps, i);
    assert CallerOk(states[i], c);
  }

  // ----- delivery

  /** How many own steps a caller still needs before it returns, once the reply is written. */
  function Distance(w: Caller): nat {
    match w
    case Waiting(_, _, _) => 3
    case LoopTop(_, _) => 2
    case Armed(_, _, _) => 1
    case _ => 0
  }

  /** The caller a step acts for, if any. */
  predicate ActsFor(step: Step, c: nat) {
    match step
    case CheckToken(d) => d == c
    case Probe(d) => d == c
    case Join(d) => d == c
    case Arm(d) => d == c
    case Read(d) => d == c
    case Wake(d) => d == c
    case GiveUp(d) => d == c
    case Leave(d) => d == c
    case _ => false
  }

  /**
   Delivery: once a flight has notified, a caller in it always has an enabled step of its own; each
   such step other than giving up brings it strictly closer to returning, ending in the flight's
   reply; steps of others do not move it.
   */
  lemma Delivery(states: seq<State>, steps: seq<Step>, i: nat, c: nat)
    requires IsRun(states, steps) && i < |steps| && c < |states[i].callers|
    requires states[i].callers[c].Waiting? || states[i].callers[c].LoopTop? || states[i].callers[c].Armed?
    requires states[i].callers[c].flight < |states[i].flights|
    requires states[i].flights[states[i].callers[c].flight].notifies > 0
    ensures Enabled(states[i], Wake(c)) || Enabled(states[i], Arm(c)) || Enabled(states[i], Read(c))
    ensures c < |states[i + 1].callers|
    ensures !ActsFor(steps[i], c) ==> states[i + 1].callers[c] == states[i].callers[c]
    ensures ActsFor(steps[i], c) && !steps[i].GiveUp? ==>
              && Distance(states[i + 1].callers[c]) < Distance(states[i].callers[c])
              && (Distance(states[i + 1].callers[c]) == 0 ==>
                    states[i + 1].callers[c].Served?
                    && Some(states[i + 1].callers[c].reply) == states[i].flights[states[i].callers[c].flight].result)
  {
    RunInvariant(states, steps, i);
    var s := states[i];
    assert CallerOk(s, c) && LeaderOk(s.flights[s.callers[c].flight]);
    hide Inv;
    DeliveryStep(s, steps[i], c);
  }

  lemma DeliveryStep(s: State, step: Step, c: nat)
    requires Enabled(s, step) && c < |s.callers| && CallerOk(s, c)
    requires s.callers[c].Waiting? || s.callers[c].LoopTop? || s.callers[c].Armed?
    requires LeaderOk(s.flights[s.callers[c].flight]) && s.flights[s.callers[c].flight].notifies > 0
    ensures Enabled(s, Wake(c)) || Enabled(s, Arm(c)) || Enabled(s, Read(c))
    ensures var t := Do(s, step);
      && c < |t.callers|
      && (!ActsFor(step, c) ==> t.callers[c] == s.callers[c])
      && (ActsFor(step, c) && !step.GiveUp? ==>
            && Distance(t.callers[c]) < Distance(s.callers[c])
            && (Distance(t.callers[c]) == 0 ==>
                  t.callers[c].Served? && Some(t.callers[c].reply) == s.flights[s.callers[c].flight].result))
  {
  }
}
