/**
 The reference model of the LLM response cache: a plain list of entries ordered from least to
 most recently used. `ResponseCache` is proved to behave exactly like this list.
 */
module RecencyList {
  import opened Wrappers

  /** A SHA-256 digest; only equality of keys matters to the cache. */
  datatype CacheKey = CacheKey(digest: seq<bv8>)

  datatype Entry = Entry(key: CacheKey, value: string, insertedAt: nat)

  /** `Instant::elapsed` and `duration_since` saturate at zero. */
  function Since(now: nat, then_: nat): nat {
    if now >= then_ then now - then_ else 0
  }

  predicate Expired(e: Entry, now: nat, ttl: nat) {
    Since(now, e.insertedAt) > ttl
  }

  predicate DistinctKeys(s: seq<Entry>) {
    forall i, j :: 0 <= i < j < |s| ==> s[i].key != s[j].key
  }

  predicate Holds(s: seq<Entry>, k: CacheKey) {
    exists i :: 0 <= i < |s| && s[i].key == k
  }

  /** The first (and, with distinct keys, only) entry for `k`. */
  function Lookup(s: seq<Entry>, k: CacheKey): (r: Option<Entry>)
    ensures r.Some? <==> Holds(s, k)
    ensures r.Some? ==> r.value in s && r.value.key == k
  {
    if s == [] then None
    else if s[0].key == k then Some(s[0])
    else
      var r := Lookup(s[1..], k);
      assert Holds(s, k) <==> Holds(s[1..], k) by {
        if Holds(s, k) {
          var i :| 0 <= i < |s| && s[i].key == k;
          assert s[1..][i - 1].key == k;
        }
        if Holds(s[1..], k) {
          var i :| 0 <= i < |s[1..]| && s[1..][i].key == k;
          assert s[i + 1].key == k;
        }
      }
      r
  }

  /** The list without any entry for `k`, order kept. */
  function WithoutKey(s: seq<Entry>, k: CacheKey): seq<Entry> {
    if s == [] then []
    else (if s[0].key == k then [] else [s[0]]) + WithoutKey(s[1..], k)
  }

  /** The list without its expired entries, order kept. */
  function Unexpired(s: seq<Entry>, now: nat, ttl: nat): seq<Entry> {
    if s == [] then []
    else (if Expired(s[0], now, ttl) then [] else [s[0]]) + Unexpired(s[1..], now, ttl)
  }

  /** The `max` most recently used entries. */
  function Newest(s: seq<Entry>, max: nat): (r: seq<Entry>)
    ensures |r| <= max
  {
    if |s| > max then s[|s| - max..] else s
  }

  /** What `get` returns, and the list it leaves. */
  function Get(s: seq<Entry>, k: CacheKey, now: nat, ttl: nat): (seq<Entry>, Option<string>) {
    match Lookup(s, k)
    case None => (s, None)
    case Some(e) =>
      if Expired(e, now, ttl) then (WithoutKey(s, k), None)
      else (WithoutKey(s, k) + [e], Some(e.value))
  }

  /** Replace or append; the entry becomes both the youngest and the most recently used. */
  function Put(s: seq<Entry>, k: CacheKey, v: string, now: nat): seq<Entry> {
    WithoutKey(s, k) + [Entry(k, v, now)]
  }

  /** A zero time-to-live switches expiry pruning off. */
  function Prune(s: seq<Entry>, now: nat, ttl: nat, max: nat): seq<Entry> {
    Newest(if ttl != 0 then Unexpired(s, now, ttl) else s, max)
  }

  /** `now` is the clock reading of `insert`, `later` the second reading taken when pruning. */
  function Insert(s: seq<Entry>, k: CacheKey, v: string, now: nat, later: nat, ttl: nat, max: nat): seq<Entry> {
    Prune(Put(s, k, v, now), later, ttl, max)
  }

  // ----- facts used by the refinement proof

  lemma {:induction false} WithoutKeyAt(s: seq<Entry>, p: nat)
    requires DistinctKeys(s) && p < |s|
    ensures WithoutKey(s, s[p].key) == s[..p] + s[p + 1..]
    ensures Lookup(s, s[p].key) == Some(s[p])
  {
    if p == 0 {
      WithoutKeyAbsent(s[1..], s[0].key);
    } else {
      WithoutKeyAt(s[1..], p - 1);
      assert [s[0]] + (s[1..][..p - 1] + s[1..][p..]) == s[..p] + s[p + 1..];
    }
  }

  lemma {:induction false} WithoutKeyAbsent(s: seq<Entry>, k: CacheKey)
    requires forall i :: 0 <= i < |s| ==> s[i].key != k
    ensures WithoutKey(s, k) == s
  {
    if s != [] { WithoutKeyAbsent(s[1..], k); }
  }

  lemma {:induction false} UnexpiredConcat(a: seq<Entry>, b: seq<Entry>, now: nat, ttl: nat)
    ensures Unexpired(a + b, now, ttl) == Unexpired(a, now, ttl) + Unexpired(b, now, ttl)
  {
    if a == [] {
      assert a + b == b;
    } else {
      assert (a + b)[1..] == a[1..] + b;
      UnexpiredConcat(a[1..], b, now, ttl);
    }
  }

  lemma {:induction false} UnexpiredAllFresh(s: seq<Entry>, now: nat, ttl: nat)
    requires forall i :: 0 <= i < |s| ==> !Expired(s[i], now, ttl)
    ensures Unexpired(s, now, ttl) == s
  {
    if s != [] { UnexpiredAllFresh(s[1..], now, ttl); }
  }

  /** Dropping an expired entry does not change the unexpired part. */
  lemma {:induction false} UnexpiredDrop(s: seq<Entry>, p: nat, now: nat, ttl: nat)
    requires p < |s| && Expired(s[p], now, ttl)
    ensures Unexpired(s[..p] + s[p + 1..], now, ttl) == Unexpired(s, now, ttl)
  {
    assert s == s[..p] + ([s[p]] + s[p + 1..]);
    UnexpiredConcat(s[..p], [s[p]] + s[p + 1..], now, ttl);
    UnexpiredConcat([s[p]], s[p + 1..], now, ttl);
    UnexpiredConcat(s[..p], s[p + 1..], now, ttl);
    assert Unexpired([s[p]], now, ttl) == [];
  }

  lemma {:induction false} OldestDropped(s: seq<Entry>, max: nat)
    requires DistinctKeys(s) && |s| > max
    ensures Newest(WithoutKey(s, s[0].key), max) == Newest(s, max)
  {
    WithoutKeyAt(s, 0);
  }

  lemma NewestShort(s: seq<Entry>, max: nat)
    requires |s| <= max
    ensures Newest(s, max) == s
  {
  }
}
