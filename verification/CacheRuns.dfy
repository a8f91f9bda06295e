/** What any sequence of cache calls promises, stated on the recency list. */
module CacheRuns {
  import opened Wrappers
  import opened RecencyList

  datatype Call =
    | Fetch(key: CacheKey, now: nat)
    | Store(key: CacheKey, value: string, now: nat, later: nat)

  function Apply(s: seq<Entry>, c: Call, ttl: nat, max: nat): seq<Entry> {
    match c
    case Fetch(k, now) => Get(s, k, now, ttl).0
    case Store(k, v, now, later) => Insert(s, k, v, now, later, ttl, max)
  }

  /** The list after all calls, started from `s`. */
  function Run(s: seq<Entry>, calls: seq<Call>, ttl: nat, max: nat): seq<Entry> {
    if calls == [] then s
    else Apply(Run(s, calls[..|calls| - 1], ttl, max), calls[|calls| - 1], ttl, max)
  }

  /** The entry written by the last store to `k`. */
  function LatestStore(calls: seq<Call>, k: CacheKey): Option<Entry> {
    if calls == [] then None
    else
      var c := calls[|calls| - 1];
      if c.Store? && c.key == k then Some(Entry(k, c.value, c.now)) else LatestStore(calls[..|calls| - 1], k)
  }

  // ----- members of the filtered lists

  lemma {:induction false} WithoutKeyMembers(s: seq<Entry>, k: CacheKey, e: Entry)
    ensures e in WithoutKey(s, k) <==> e in s && e.key != k
  {
    if s != [] {
      WithoutKeyMembers(s[1..], k, e);
      assert s == [s[0]] + s[1..];
    }
  }

  lemma {:induction false} WithoutKeyDistinct(s: seq<Entry>, k: CacheKey)
    requires DistinctKeys(s)
    ensures DistinctKeys(WithoutKey(s, k))
    ensures |WithoutKey(s, k)| <= |s|
  {
    if s != [] {
      WithoutKeyDistinct(s[1..], k);
      var r := WithoutKey(s[1..], k);
      forall j | 0 <= j < |r| ensures r[j].key != s[0].key {
        WithoutKeyMembers(s[1..], k, r[j]);
      }
    }
  }

  lemma {:induction false} UnexpiredMembers(s: seq<Entry>, now: nat, ttl: nat, e: Entry)
    ensures e in Unexpired(s, now, ttl) <==> e in s && !Expired(e, now, ttl)
  {
    if s != [] {
      UnexpiredMembers(s[1..], now, ttl, e);
      assert s == [s[0]] + s[1..];
    }
  }

  lemma {:induction false} UnexpiredDistinct(s: seq<Entry>, now: nat, ttl: nat)
    requires DistinctKeys(s)
    ensures DistinctKeys(Unexpired(s, now, ttl))
    ensures |Unexpired(s, now, ttl)| <= |s|
  {
    if s != [] {
      UnexpiredDistinct(s[1..], now, ttl);
      var r := Unexpired(s[1..], now, ttl);
      forall j | 0 <= j < |r| ensures r[j].key != s[0].key {
        UnexpiredMembers(s[1..], now, ttl, r[j]);
      }
    }
  }

  lemma PutDistinct(s: seq<Entry>, k: CacheKey, v: string, now: nat)
    requires DistinctKeys(s)
    ensures DistinctKeys(Put(s, k, v, now)) && |Put(s, k, v, now)| <= |s| + 1
  {
    WithoutKeyDistinct(s, k);
    var r := WithoutKey(s, k);
    forall j | 0 <= j < |r| ensures r[j].key != k { WithoutKeyMembers(s, k, r[j]); }
  }

  lemma {:induction false} LookupMember(s: seq<Entry>, e: Entry)
    requires DistinctKeys(s) && e in s
    ensures Lookup(s, e.key) == Some(e)
  {
    var p :| 0 <= p < |s| && s[p] == e;
    WithoutKeyAt(s, p);
  }

  // ----- one insertion

  /** The list after expiry pruning, before the size limit is enforced. */
  function Fresh(s: seq<Entry>, k: CacheKey, v: string, now: nat, later: nat, ttl: nat): seq<Entry> {
    if ttl != 0 then Unexpired(Put(s, k, v, now), later, ttl) else Put(s, k, v, now)
  }

  /** Before the size limit: the new entry, and all others but the one it replaces, unless expired. */
  lemma {:induction false} FreshMembers(s: seq<Entry>, k: CacheKey, v: string, now: nat, later: nat, ttl: nat, e: Entry)
    ensures e in Fresh(s, k, v, now, later, ttl) <==>
            && (e == Entry(k, v, now) || (e in s && e.key != k))
            && (ttl == 0 || later <= e.insertedAt + ttl)
  {
    hide WithoutKey, Unexpired;
    WithoutKeyMembers(s, k, e);
    UnexpiredMembers(Put(s, k, v, now), later, ttl, e);
  }

  /**
   After an insertion no expired entry is left (for a non-zero time-to-live), and at most one entry
   was evicted for size: the least recently used one.
   */
  lemma InsertEffect(s: seq<Entry>, k: CacheKey, v: string, now: nat, later: nat, ttl: nat, max: nat)
    requires DistinctKeys(s) && |s| <= max && 1 <= max
    ensures var r := Insert(s, k, v, now, later, ttl, max);
      var f := Fresh(s, k, v, now, later, ttl);
      && DistinctKeys(r) && |r| <= max
      && (r == f || (|f| == max + 1 && r == f[1..]))
      && (ttl != 0 ==> forall e :: e in r ==> later <= e.insertedAt + ttl)
  {
    var put, f := Put(s, k, v, now), Fresh(s, k, v, now, later, ttl);
    PutDistinct(s, k, v, now);
    UnexpiredDistinct(put, later, ttl);
    forall x | x in f ensures ttl != 0 ==> later <= x.insertedAt + ttl {
      UnexpiredMembers(put, later, ttl, x);
    }
  }

  lemma NewestFresh(s: seq<Entry>, k: CacheKey, v: string, now: nat, later: nat, ttl: nat)
    requires ttl == 0 || Since(later, now) <= ttl
    ensures var f := Fresh(s, k, v, now, later, ttl); |f| > 0 && f[|f| - 1] == Entry(k, v, now)
  {
    UnexpiredConcat(WithoutKey(s, k), [Entry(k, v, now)], later, ttl);
  }

  /** The inserted entry is held, and most recent, unless it expired between the two clock readings. */
  lemma {:induction false} InsertHolds(s: seq<Entry>, k: CacheKey, v: string, now: nat, later: nat, ttl: nat, max: nat)
    requires DistinctKeys(s) && |s| <= max && 1 <= max
    ensures var r := Insert(s, k, v, now, later, ttl, max);
      if ttl == 0 || later <= now + ttl
      then |r| > 0 && r[|r| - 1] == Entry(k, v, now) && Lookup(r, k) == Some(Entry(k, v, now))
      else !Holds(r, k)
  {
    hide Insert, Fresh, Lookup;
    InsertEffect(s, k, v, now, later, ttl, max);
    if ttl == 0 || Since(later, now) <= ttl {
      NewestFresh(s, k, v, now, later, ttl);
      LookupMember(Insert(s, k, v, now, later, ttl, max), Entry(k, v, now));
    } else {
      ExpiredAtOnce(s, k, v, now, later, ttl, max);
    }
  }

  lemma ExpiredAtOnce(s: seq<Entry>, k: CacheKey, v: string, now: nat, later: nat, ttl: nat, max: nat)
    requires DistinctKeys(s) && |s| <= max && 1 <= max && ttl != 0 && Since(later, now) > ttl
    ensures !Holds(Insert(s, k, v, now, later, ttl, max), k)
  {
    hide Insert;
    InsertEffect(s, k, v, now, later, ttl, max);
    var f, r := Fresh(s, k, v, now, later, ttl), Insert(s, k, v, now, later, ttl, max);
    forall i | 0 <= i < |r| ensures r[i].key != k {
      assert r[i] in f;
      UnexpiredMembers(Put(s, k, v, now), later, ttl, r[i]);
      WithoutKeyMembers(s, k, r[i]);
    }
  }

  // ----- whole runs

  lemma ApplyInvariant(s: seq<Entry>, c: Call, ttl: nat, max: nat)
    requires DistinctKeys(s) && |s| <= max && 1 <= max
    ensures DistinctKeys(Apply(s, c, ttl, max)) && |Apply(s, c, ttl, max)| <= max
  {
    match c
    case Fetch(k, now) =>
      WithoutKeyDistinct(s, k);
      if Holds(s, k) {
        var e := Lookup(s, k).value;
        var p :| 0 <= p < |s| && s[p] == e;
        WithoutKeyAt(s, p);
        PutDistinct(s, k, e.value, e.insertedAt);
      }
    case Store(k, v, now, later) => InsertEffect(s, k, v, now, later, ttl, max);
  }

  /** In every reachable state keys are distinct and the size limit holds. */
  lemma {:induction false} RunBounded(calls: seq<Call>, ttl: nat, max: nat)
    requires 1 <= max
    ensures DistinctKeys(Run([], calls, ttl, max)) && |Run([], calls, ttl, max)| <= max
  {
    if calls != [] {
      RunBounded(calls[..|calls| - 1], ttl, max);
      ApplyInvariant(Run([], calls[..|calls| - 1], ttl, max), calls[|calls| - 1], ttl, max);
    }
  }

  lemma ApplyMember(s: seq<Entry>, c: Call, ttl: nat, max: nat, e: Entry)
    requires e in Apply(s, c, ttl, max)
    ensures (c.Store? && e == Entry(c.key, c.value, c.now)) || (e in s && (c.Store? ==> e.key != c.key))
  {
    match c
    case Fetch(k, now) => WithoutKeyMembers(s, k, e);
    case Store(k, v, now, later) =>
      var put := Put(s, k, v, now);
      assert e in Fresh(s, k, v, now, later, ttl);
      UnexpiredMembers(put, later, ttl, e);
      WithoutKeyMembers(s, k, e);
  }

  /** Whatever is held for a key, after any run, is what the last store to that key wrote. */
  lemma {:induction false} RunHoldsLatest(calls: seq<Call>, ttl: nat, max: nat, e: Entry)
    requires e in Run([], calls, ttl, max)
    ensures LatestStore(calls, e.key) == Some(e)
  {
    if calls != [] {
      var before, c := calls[..|calls| - 1], calls[|calls| - 1];
      ApplyMember(Run([], before, ttl, max), c, ttl, max, e);
      if e in Run([], before, ttl, max) { RunHoldsLatest(before, ttl, max, e); }
    }
  }

  /** A hit returns the last value stored for the key, and that value is at most `ttl` old. */
  lemma {:induction false} HitIsLatest(calls: seq<Call>, ttl: nat, max: nat, k: CacheKey, now: nat)
    requires 1 <= max
    ensures var s := Run([], calls, ttl, max);
      match Get(s, k, now, ttl).1
      case Some(v) =>
        && LatestStore(calls, k).Some? && LatestStore(calls, k).value.value == v
        && now <= LatestStore(calls, k).value.insertedAt + ttl
      case None =>
        || !Holds(s, k)
        || (LatestStore(calls, k).Some? && now > LatestStore(calls, k).value.insertedAt + ttl)
  {
    var s := Run([], calls, ttl, max);
    if Holds(s, k) { RunHoldsLatest(calls, ttl, max, Lookup(s, k).value); }
  }

  // ----- recency: what is used often enough stays

  /** `e` is held and only keys from `used` are more recent. */
  ghost predicate Behind(s: seq<Entry>, e: Entry, used: set<CacheKey>) {
    exists p :: 0 <= p < |s| && s[p] == e && forall j :: p < j < |s| ==> s[j].key in used
  }

  lemma {:induction false} BehindWithoutKey(s: seq<Entry>, e: Entry, used: set<CacheKey>, k: CacheKey)
    requires Behind(s, e, used) && k != e.key
    ensures Behind(WithoutKey(s, k), e, used)
  {
    var p :| 0 <= p < |s| && s[p] == e && forall j :: p < j < |s| ==> s[j].key in used;
    var r := WithoutKey(s[1..], k);
    if p == 0 {
      forall j | 0 <= j < |r| ensures r[j].key in used { WithoutKeyMembers(s[1..], k, r[j]); }
      assert WithoutKey(s, k) == [e] + r;
      assert WithoutKey(s, k)[0] == e;
    } else {
      assert s[1..][p - 1] == e;
      BehindWithoutKey(s[1..], e, used, k);
      BehindCons(if s[0].key == k then [] else [s[0]], r, e, used);
    }
  }

  lemma {:induction false} BehindUnexpired(s: seq<Entry>, e: Entry, used: set<CacheKey>, now: nat, ttl: nat)
    requires Behind(s, e, used) && !Expired(e, now, ttl)
    ensures Behind(Unexpired(s, now, ttl), e, used)
  {
    var p :| 0 <= p < |s| && s[p] == e && forall j :: p < j < |s| ==> s[j].key in used;
    var r := Unexpired(s[1..], now, ttl);
    if p == 0 {
      forall j | 0 <= j < |r| ensures r[j].key in used { UnexpiredMembers(s[1..], now, ttl, r[j]); }
      assert Unexpired(s, now, ttl) == [e] + r;
      assert Unexpired(s, now, ttl)[0] == e;
    } else {
      assert s[1..][p - 1] == e;
      BehindUnexpired(s[1..], e, used, now, ttl);
      BehindCons(if Expired(s[0], now, ttl) then [] else [s[0]], r, e, used);
    }
  }

  lemma BehindCons(a: seq<Entry>, s: seq<Entry>, e: Entry, used: set<CacheKey>)
    requires Behind(s, e, used)
    ensures Behind(a + s, e, used)
  {
    var p :| 0 <= p < |s| && s[p] == e && forall j :: p < j < |s| ==> s[j].key in used;
    assert (a + s)[|a| + p] == e;
    forall j | |a| + p < j < |a + s| ensures (a + s)[j].key in used { assert (a + s)[j] == s[j - |a|]; }
  }

  lemma BehindAppend(s: seq<Entry>, e: Entry, used: set<CacheKey>, x: Entry)
    requires Behind(s, e, used) && x.key in used
    ensures Behind(s + [x], e, used)
  {
    var p :| 0 <= p < |s| && s[p] == e && forall j :: p < j < |s| ==> s[j].key in used;
    assert (s + [x])[p] == e;
  }

  /** Distinct keys from a set cannot outnumber it. */
  lemma {:induction false} DistinctInSet(s: seq<Entry>, used: set<CacheKey>)
    requires DistinctKeys(s) && forall j :: 0 <= j < |s| ==> s[j].key in used
    ensures |s| <= |used|
  {
    if s != [] {
      var k := s[0].key;
      assert forall j :: 0 <= j < |s[1..]| ==> s[1..][j].key in used - {k};
      DistinctInSet(s[1..], used - {k});
    }
  }

  lemma FewBehind(s: seq<Entry>, p: nat, used: set<CacheKey>)
    requires DistinctKeys(s) && p < |s| && forall j :: p < j < |s| ==> s[j].key in used
    ensures |s| - p - 1 <= |used|
  {
    DistinctInSet(s[p + 1..], used);
  }

  lemma BehindSuffix(s: seq<Entry>, cut: nat, p: nat, e: Entry, used: set<CacheKey>)
    requires cut <= p < |s| && s[p] == e && forall j :: p < j < |s| ==> s[j].key in used
    ensures Behind(s[cut..], e, used)
  {
    assert s[cut..][p - cut] == e;
  }

  lemma BehindNewest(s: seq<Entry>, e: Entry, used: set<CacheKey>, max: nat)
    requires DistinctKeys(s) && Behind(s, e, used) && |used| < max
    ensures Behind(Newest(s, max), e, used)
  {
    var p :| 0 <= p < |s| && s[p] == e && forall j :: p < j < |s| ==> s[j].key in used;
    FewBehind(s, p, used);
    if |s| > max { BehindSuffix(s, |s| - max, p, e, used); }
  }

  lemma ApplyBehind(s: seq<Entry>, c: Call, ttl: nat, max: nat, e: Entry, used: set<CacheKey>)
    requires DistinctKeys(s) && Behind(s, e, used) && |used| < max
    requires c.key in used && e.key !in used
    requires c.Store? && ttl != 0 ==> !Expired(e, c.later, ttl)
    ensures Behind(Apply(s, c, ttl, max), e, used)
  {
    match c
    case Fetch(k, now) =>
      BehindWithoutKey(s, e, used, k);
      if Holds(s, k) && !Expired(Lookup(s, k).value, now, ttl) {
        BehindAppend(WithoutKey(s, k), e, used, Lookup(s, k).value);
      }
    case Store(k, v, now, later) =>
      BehindWithoutKey(s, e, used, k);
      BehindAppend(WithoutKey(s, k), e, used, Entry(k, v, now));
      PutDistinct(s, k, v, now);
      var put := Put(s, k, v, now);
      UnexpiredDistinct(put, later, ttl);
      if ttl != 0 { BehindUnexpired(put, e, used, later, ttl); }
      BehindNewest(Fresh(s, k, v, now, later, ttl), e, used, max);
  }

  /**
   Least-recently-used eviction: an entry that was just used is still held, unchanged, after any
   calls that touch fewer than `max` other keys, as long as no pruning finds it expired.
   */
  lemma {:induction false} RunKeepsRecent(s: seq<Entry>, e: Entry, calls: seq<Call>, ttl: nat, max: nat,
      used: set<CacheKey>)
    requires DistinctKeys(s) && |s| <= max && s != [] && s[|s| - 1] == e
    requires |used| < max && e.key !in used
    requires forall i :: 0 <= i < |calls| ==> calls[i].key in used
    requires forall i :: 0 <= i < |calls| ==> calls[i].Store? && ttl != 0 ==> calls[i].later <= e.insertedAt + ttl
    ensures var r := Run(s, calls, ttl, max);
      DistinctKeys(r) && |r| <= max && Behind(r, e, used) && Lookup(r, e.key) == Some(e)
  {
    var r := Run(s, calls, ttl, max);
    if calls == [] {
      assert Behind(s, e, used) by { assert s[|s| - 1] == e; }
    } else {
      var before, c := calls[..|calls| - 1], calls[|calls| - 1];
      RunKeepsRecent(s, e, before, ttl, max, used);
      var m := Run(s, before, ttl, max);
      assert c.key in used;
      ApplyBehind(m, c, ttl, max, e, used);
      ApplyInvariant(m, c, ttl, max);
    }
    LookupMember(r, e);
  }

  // ----- recency: what a use is

  /** A store uses its key, and so does a fetch that returns a value. */
  predicate Uses(s: seq<Entry>, c: Call, ttl: nat, k: CacheKey) {
    c.key == k && (c.Store? || Get(s, k, c.now, ttl).1.Some?)
  }

  /** The number of the last call that used `k`, counted from one; zero if there is none. */
  function LastUse(calls: seq<Call>, ttl: nat, max: nat, k: CacheKey): (n: nat)
    ensures n <= |calls|
  {
    if calls == [] then 0
    else
      var before, c := calls[..|calls| - 1], calls[|calls| - 1];
      if Uses(Run([], before, ttl, max), c, ttl, k) then |calls| else LastUse(before, ttl, max, k)
  }

  /** The numbers are strictly increasing along the list. */
  ghost predicate Rising(s: seq<Entry>, rank: CacheKey -> nat) {
    && (forall i :: 0 <= i < |s| ==> rank(s[i].key) > 0)
    && forall i, j :: 0 <= i < j < |s| ==> rank(s[i].key) < rank(s[j].key)
  }

  lemma {:induction false} RisingWithoutKey(s: seq<Entry>, k: CacheKey, rank: CacheKey -> nat)
    requires Rising(s, rank)
    ensures Rising(WithoutKey(s, k), rank)
  {
    if s != [] {
      RisingWithoutKey(s[1..], k, rank);
      var r := WithoutKey(s[1..], k);
      forall j | 0 <= j < |r| ensures rank(s[0].key) < rank(r[j].key) { WithoutKeyMembers(s[1..], k, r[j]); }
    }
  }

  lemma {:induction false} RisingUnexpired(s: seq<Entry>, now: nat, ttl: nat, rank: CacheKey -> nat)
    requires Rising(s, rank)
    ensures Rising(Unexpired(s, now, ttl), rank)
  {
    if s != [] {
      RisingUnexpired(s[1..], now, ttl, rank);
      var r := Unexpired(s[1..], now, ttl);
      forall j | 0 <= j < |r| ensures rank(s[0].key) < rank(r[j].key) { UnexpiredMembers(s[1..], now, ttl, r[j]); }
    }
  }

  /** A list keeps its order when the numbers of its own keys do not change. */
  lemma RisingSame(s: seq<Entry>, old_: CacheKey -> nat, rank: CacheKey -> nat)
    requires Rising(s, old_) && forall e :: e in s ==> rank(e.key) == old_(e.key)
    ensures Rising(s, rank)
  {
    forall i | 0 <= i < |s| ensures rank(s[i].key) == old_(s[i].key) { assert s[i] in s; }
  }

  lemma RisingAppend(s: seq<Entry>, e: Entry, rank: CacheKey -> nat)
    requires Rising(s, rank) && rank(e.key) > 0 && forall x :: x in s ==> rank(x.key) < rank(e.key)
    ensures Rising(s + [e], rank)
  {
    forall i | 0 <= i < |s| ensures rank(s[i].key) < rank(e.key) { assert s[i] in s; }
  }

  ghost function Ranks(calls: seq<Call>, ttl: nat, max: nat): CacheKey -> nat {
    k => LastUse(calls, ttl, max, k)
  }

  /** The used entry goes to the end, the others keep their places. */
  lemma {:induction false} UsedGoesLast(s: seq<Entry>, calls: seq<Call>, ttl: nat, max: nat, e: Entry)
    requires calls != [] && s == Run([], calls[..|calls| - 1], ttl, max)
    requires Rising(s, Ranks(calls[..|calls| - 1], ttl, max))
    requires calls[|calls| - 1].key == e.key && Uses(s, calls[|calls| - 1], ttl, e.key)
    ensures Rising(WithoutKey(s, e.key) + [e], Ranks(calls, ttl, max))
  {
    hide Run, Uses;
    var before, r := calls[..|calls| - 1], WithoutKey(s, e.key);
    RisingWithoutKey(s, e.key, Ranks(before, ttl, max));
    forall x | x in r ensures LastUse(calls, ttl, max, x.key) == LastUse(before, ttl, max, x.key) {
      WithoutKeyMembers(s, e.key, x);
      OtherKey(calls, ttl, max, x.key);
    }
    RisingSame(r, Ranks(before, ttl, max), Ranks(calls, ttl, max));
    RisingAppend(r, e, Ranks(calls, ttl, max));
  }

  lemma {:induction false} OtherKey(calls: seq<Call>, ttl: nat, max: nat, k: CacheKey)
    requires calls != [] && calls[|calls| - 1].key != k
    ensures LastUse(calls, ttl, max, k) == LastUse(calls[..|calls| - 1], ttl, max, k)
  {
    hide Run;
  }

  lemma {:induction false} FetchRising(calls: seq<Call>, ttl: nat, max: nat)
    requires calls != [] && calls[|calls| - 1].Fetch?
    requires Rising(Run([], calls[..|calls| - 1], ttl, max), Ranks(calls[..|calls| - 1], ttl, max))
    ensures Rising(Run([], calls, ttl, max), Ranks(calls, ttl, max))
  {
    var before, c := calls[..|calls| - 1], calls[|calls| - 1];
    var s := Run([], before, ttl, max);
    var k := c.key;
    if Get(s, k, c.now, ttl).1.Some? {
      UsedGoesLast(s, calls, ttl, max, Lookup(s, k).value);
    } else {
      RisingWithoutKey(s, k, Ranks(before, ttl, max));
      assert Rising(Run([], calls, ttl, max), Ranks(before, ttl, max));
      forall x | x in Run([], calls, ttl, max)
        ensures LastUse(calls, ttl, max, x.key) == LastUse(before, ttl, max, x.key)
      {
        WithoutKeyMembers(s, k, x);
      }
      RisingSame(Run([], calls, ttl, max), Ranks(before, ttl, max), Ranks(calls, ttl, max));
    }
  }

  lemma {:induction false} StoreRising(calls: seq<Call>, ttl: nat, max: nat)
    requires calls != [] && calls[|calls| - 1].Store?
    requires Rising(Run([], calls[..|calls| - 1], ttl, max), Ranks(calls[..|calls| - 1], ttl, max))
    ensures Rising(Run([], calls, ttl, max), Ranks(calls, ttl, max))
  {
    hide WithoutKey, Unexpired;
    var c := calls[|calls| - 1];
    var s := Run([], calls[..|calls| - 1], ttl, max);
    UsedGoesLast(s, calls, ttl, max, Entry(c.key, c.value, c.now));
    var put := Put(s, c.key, c.value, c.now);
    RisingUnexpired(put, c.later, ttl, Ranks(calls, ttl, max));
  }

  /** Least recently used first: in every reachable state the list is ordered by the last use of each key. */
  lemma {:induction false} OrderedByLastUse(calls: seq<Call>, ttl: nat, max: nat)
    ensures var s := Run([], calls, ttl, max);
      && (forall i :: 0 <= i < |s| ==> LastUse(calls, ttl, max, s[i].key) > 0)
      && forall i, j :: 0 <= i < j < |s| ==>
           LastUse(calls, ttl, max, s[i].key) < LastUse(calls, ttl, max, s[j].key)
  {
    RunRising(calls, ttl, max);
    var s, rank := Run([], calls, ttl, max), Ranks(calls, ttl, max);
    assert forall i :: 0 <= i < |s| ==> rank(s[i].key) == LastUse(calls, ttl, max, s[i].key);
  }

  lemma {:induction false} RunRising(calls: seq<Call>, ttl: nat, max: nat)
    ensures Rising(Run([], calls, ttl, max), Ranks(calls, ttl, max))
  {
    if calls != [] {
      RunRising(calls[..|calls| - 1], ttl, max);
      if calls[|calls| - 1].Fetch? { FetchRising(calls, ttl, max); } else { StoreRising(calls, ttl, max); }
    }
  }

  lemma {:induction false} RunAppend(s: seq<Entry>, a: seq<Call>, b: seq<Call>, ttl: nat, max: nat)
    ensures Run(s, a + b, ttl, max) == Run(Run(s, a, ttl, max), b, ttl, max)
  {
    hide Apply;
    if b == [] {
      assert a + b == a;
    } else {
      assert (a + b)[..|a + b| - 1] == a + b[..|b| - 1];
      RunAppend(s, a, b[..|b| - 1], ttl, max);
    }
  }

  /** A fetch takes out an expired entry and nothing else. */
  lemma {:induction false} FetchEffect(s: seq<Entry>, k: CacheKey, now: nat, ttl: nat, e: Entry)
    requires DistinctKeys(s)
    ensures var r := Get(s, k, now, ttl);
      && (e in r.0 <==> e in s && (e.key == k ==> now <= e.insertedAt + ttl))
      && (e in s && e.key == k && now <= e.insertedAt + ttl ==> r.1 == Some(e.value))
      && (r.1.None? ==> !Holds(r.0, k))
  {
    hide WithoutKey;
    WithoutKeyMembers(s, k, e);
    if e in s && e.key == k { LookupMember(s, e); }
    if Holds(s, k) {
      forall x | x in WithoutKey(s, k) ensures x.key != k { WithoutKeyMembers(s, k, x); }
    }
  }

  /**
   A hit counts as a use: after a fetch that returned `v` for `k`, any calls on fewer than `max` other keys
   leave a fetch of `k` returning `v`, as long as what was stored has not expired.
   */
  lemma {:induction false} HitKeepsRecent(
    calls: seq<Call>, k: CacheKey, now: nat, v: string, more: seq<Call>, last: nat, ttl: nat, max: nat,
    used: set<CacheKey>)
    requires 1 <= max && Get(Run([], calls, ttl, max), k, now, ttl).1 == Some(v)
    requires |used| < max && k !in used && forall i :: 0 <= i < |more| ==> more[i].key in used
    requires LatestStore(calls, k).Some? ==>
               var stored := LatestStore(calls, k).value.insertedAt;
               && last <= stored + ttl
               && forall i :: 0 <= i < |more| && more[i].Store? && ttl != 0 ==> more[i].later <= stored + ttl
    ensures Get(Run([], calls + [Fetch(k, now)] + more, ttl, max), k, last, ttl).1 == Some(v)
  {
    var s := Run([], calls, ttl, max);
    var e := Lookup(s, k).value;
    RunHoldsLatest(calls, ttl, max, e);
    RunBounded(calls, ttl, max);
    var fetched := calls + [Fetch(k, now)];
    assert fetched[..|fetched| - 1] == calls;
    var t := Run([], fetched, ttl, max);
    RunBounded(fetched, ttl, max);
    assert t == WithoutKey(s, k) + [e];
    RunKeepsRecent(t, e, more, ttl, max, used);
    RunAppend([], fetched, more, ttl, max);
  }
}
