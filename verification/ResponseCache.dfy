/**
 The LLM response cache: a slab of nodes threaded by two intrusive doubly linked lists (recency
 and age), a free list of slots, and a key index. Clock readings are passed in; the clock never
 goes back.
 */
module ResponseCache {
  import opened Wrappers
  import opened RecencyList

  /** `Option<usize>` used as a link. */
  datatype Link = End | To(slot: nat)

  datatype Links = Links(prev: Link, next: Link)

  /** `Option<CacheNode>`. */
  datatype Slot = Vacant | Node(entry: Entry, lru: Links, ttl: Links)

  /** Which of the two lists a link belongs to. */
  datatype Thread = Lru | Ttl

  function LinksOf(n: Slot, t: Thread): Links
    requires n.Node?
  {
    if t.Lru? then n.lru else n.ttl
  }

  function WithLinks(n: Slot, t: Thread, l: Links): Slot
    requires n.Node?
  {
    if t.Lru? then n.(lru := l) else n.(ttl := l)
  }

  ghost predicate Occupied(nodes: seq<Slot>, i: nat) {
    i < |nodes| && nodes[i].Node?
  }

  ghost predicate Injective(s: seq<nat>) {
    forall i, j :: 0 <= i < j < |s| ==> s[i] != s[j]
  }

  function At(order: seq<nat>, k: int): Link {
    if 0 <= k < |order| then To(order[k]) else End
  }

  ghost predicate LinkedAt(nodes: seq<Slot>, t: Thread, order: seq<nat>, k: nat)
    requires k < |order|
  {
    && Occupied(nodes, order[k])
    && LinksOf(nodes[order[k]], t) == Links(At(order, k - 1), At(order, k + 1))
  }

  /** The links of thread `t`, from `head` to `tail`, spell out `order`, both ways. */
  ghost predicate Threaded(nodes: seq<Slot>, t: Thread, head: Link, tail: Link, order: seq<nat>) {
    && head == At(order, 0)
    && tail == At(order, |order| - 1)
    && Injective(order)
    && forall k :: 0 <= k < |order| ==> LinkedAt(nodes, t, order, k)
  }

  ghost predicate SameSlot(a: Slot, b: Slot, changed: Thread) {
    && a.Node? == b.Node?
    && (a.Node? ==> a.entry == b.entry)
    && (a.Node? && changed.Lru? ==> a.ttl == b.ttl)
    && (a.Node? && changed.Ttl? ==> a.lru == b.lru)
  }

  /** The slabs agree on everything except the links of thread `t`. */
  ghost predicate OnlyLinks(a: seq<Slot>, b: seq<Slot>, t: Thread) {
    && |a| == |b|
    && forall i :: 0 <= i < |a| ==> SameSlot(a[i], b[i], t)
  }

  /** The slots `order` hold the entries `s`, in that order. */
  ghost predicate Shows(nodes: seq<Slot>, order: seq<nat>, s: seq<Entry>) {
    && |order| == |s|
    && forall k :: 0 <= k < |order| ==> Occupied(nodes, order[k]) && nodes[order[k]].entry == s[k]
  }

  ghost function Minus<T>(s: seq<T>, p: nat): (r: seq<T>)
    requires p < |s|
    ensures |r| == |s| - 1
    ensures forall k :: 0 <= k < |r| ==> r[k] == if k < p then s[k] else s[k + 1]
  {
    s[..p] + s[p + 1..]
  }

  /** Each slot is either on both threads or exactly once on the free list. */
  ghost predicate Slots(nodes: seq<Slot>, freeList: seq<nat>, lru: seq<nat>, age: seq<nat>) {
    && Injective(freeList)
    && (forall i: nat :: i in freeList <==> i < |nodes| && nodes[i].Vacant?)
    && (forall i: nat :: Occupied(nodes, i) ==> i in lru && i in age)
    && |lru| + |freeList| == |nodes|
    && |age| == |lru|
  }

  /** The key index is a bijection onto the occupied slots. */
  ghost predicate Indexed(nodes: seq<Slot>, index: map<CacheKey, nat>, lru: seq<nat>) {
    && (forall k :: k in index ==> Occupied(nodes, index[k]) && nodes[index[k]].entry.key == k)
    && (forall i: nat :: Occupied(nodes, i) ==> nodes[i].entry.key in index && index[nodes[i].entry.key] == i)
    && |index| == |lru|
  }

  /** Sorted by insertion time, and nothing is from the future. */
  ghost predicate ByAge(s: seq<Entry>, clock: nat) {
    && (forall k :: 0 <= k < |s| ==> s[k].insertedAt <= clock)
    && (forall j, k :: 0 <= j < k < |s| ==> s[j].insertedAt <= s[k].insertedAt)
  }

  /** `CacheInner`. */
  datatype CacheInner = CacheInner(
    index: map<CacheKey, nat>,
    nodes: seq<Slot>,
    freeList: seq<nat>,
    lruHead: Link,
    lruTail: Link,
    ttlHead: Link,
    ttlTail: Link)

  const EMPTY_INNER := CacheInner(map[], [], [], End, End, End, End)

  /** What the two threads spell out: slots and entries by recency and by age. */
  datatype Orders = Orders(lru: seq<nat>, age: seq<nat>, byUse: seq<Entry>, byAge: seq<Entry>)

  ghost predicate LruThread(c: CacheInner, lru: seq<nat>) {
    Threaded(c.nodes, Lru, c.lruHead, c.lruTail, lru)
  }

  ghost predicate TtlThread(c: CacheInner, age: seq<nat>) {
    Threaded(c.nodes, Ttl, c.ttlHead, c.ttlTail, age)
  }

  /** Everything but the size bound, which is broken between an insertion and its pruning. */
  ghost predicate Coherent(c: CacheInner, o: Orders, clock: nat) {
    && LruThread(c, o.lru)
    && TtlThread(c, o.age)
    && Stored(c.index, c.nodes, c.freeList, o, clock)
  }

  /** The part of coherence that is not about links. */
  ghost predicate Stored(index: map<CacheKey, nat>, nodes: seq<Slot>, freeList: seq<nat>, o: Orders, clock: nat) {
    && Shows(nodes, o.lru, o.byUse)
    && Shows(nodes, o.age, o.byAge)
    && Slots(nodes, freeList, o.lru, o.age)
    && Indexed(nodes, index, o.lru)
    && ByAge(o.byAge, clock)
  }

  // ----- pushing at the back

  ghost function Pushed(nodes: seq<Slot>, t: Thread, tail: Link, idx: nat): seq<Slot>
    requires Occupied(nodes, idx)
    requires tail.To? ==> Occupied(nodes, tail.slot) && tail.slot != idx
  {
    var n1 := nodes[idx := WithLinks(nodes[idx], t, Links(tail, End))];
    if tail.To? then n1[tail.slot := WithLinks(n1[tail.slot], t, LinksOf(n1[tail.slot], t).(next := To(idx)))] else n1
  }

  lemma PushThreaded(a: seq<Slot>, b: seq<Slot>, t: Thread, head: Link, tail: Link, order: seq<nat>, idx: nat)
    requires Threaded(a, t, head, tail, order)
    requires Occupied(a, idx) && idx !in order
    requires tail.To? ==> Occupied(a, tail.slot) && tail.slot != idx
    requires b == Pushed(a, t, tail, idx)
    ensures Threaded(b, t, if tail.To? then head else To(idx), To(idx), order + [idx])
    ensures OnlyLinks(a, b, t)
  {
    var o := order + [idx];
    forall k | 0 <= k < |o| ensures LinkedAt(b, t, o, k) {
      if k < |order| { assert LinkedAt(a, t, order, k); }
    }
  }

  lemma TailOccupied(nodes: seq<Slot>, t: Thread, head: Link, tail: Link, order: seq<nat>, idx: nat)
    requires Threaded(nodes, t, head, tail, order) && idx !in order
    ensures tail.To? ==> Occupied(nodes, tail.slot) && tail.slot != idx
  {
    if order != [] { assert LinkedAt(nodes, t, order, |order| - 1); }
  }

  // ----- detaching

  ghost predicate Neighbours(nodes: seq<Slot>, prev: Link, idx: nat, next: Link) {
    && Occupied(nodes, idx)
    && (prev.To? ==> Occupied(nodes, prev.slot) && prev.slot != idx)
    && (next.To? ==> Occupied(nodes, next.slot) && next.slot != idx)
    && (prev.To? && next.To? ==> prev.slot != next.slot)
  }

  lemma NeighboursOnThread(a: seq<Slot>, t: Thread, head: Link, tail: Link, order: seq<nat>, p: nat)
    requires Threaded(a, t, head, tail, order)
    requires p < |order|
    ensures Neighbours(a, At(order, p - 1), order[p], At(order, p + 1))
    ensures LinksOf(a[order[p]], t) == Links(At(order, p - 1), At(order, p + 1))
  {
    assert LinkedAt(a, t, order, p);
    if p > 0 { assert LinkedAt(a, t, order, p - 1); }
    if p + 1 < |order| { assert LinkedAt(a, t, order, p + 1); }
  }

  /** The slab after the pointer writes of a detach, in the order the code makes them. */
  ghost function Bypassed(nodes: seq<Slot>, t: Thread, prev: Link, idx: nat, next: Link): (r: seq<Slot>)
    requires Neighbours(nodes, prev, idx, next)
    ensures |r| == |nodes|
  {
    var n1 := if prev.To? then nodes[prev.slot :=
        WithLinks(nodes[prev.slot], t, LinksOf(nodes[prev.slot], t).(next := next))]
              else nodes;
    var n2 := if next.To? then n1[next.slot := WithLinks(n1[next.slot], t, LinksOf(n1[next.slot], t).(prev := prev))]
              else n1;
    n2[idx := WithLinks(n2[idx], t, Links(End, End))]
  }

  lemma BypassedAt(a: seq<Slot>, t: Thread, prev: Link, idx: nat, next: Link, x: nat)
    requires Neighbours(a, prev, idx, next) && Occupied(a, x) && x != idx
    ensures var b := Bypassed(a, t, prev, idx, next);
      && Occupied(b, x)
      && LinksOf(b[x], t).prev == (if next == To(x) then prev else LinksOf(a[x], t).prev)
      && LinksOf(b[x], t).next == (if prev == To(x) then next else LinksOf(a[x], t).next)
  {
  }

  lemma BypassedFrame(a: seq<Slot>, t: Thread, prev: Link, idx: nat, next: Link)
    requires Neighbours(a, prev, idx, next)
    ensures OnlyLinks(a, Bypassed(a, t, prev, idx, next), t)
  {
  }

  lemma MinusAt(order: seq<nat>, p: nat, k: nat)
    requires p < |order| && k < |order| - 1
    ensures var j := if k < p then k else k + 1;
      && At(Minus(order, p), k - 1) == At(order, if j == p + 1 then p - 1 else j - 1)
      && At(Minus(order, p), k + 1) == At(order, if j == p - 1 then p + 1 else j + 1)
  {
  }

  lemma MinusInjective(order: seq<nat>, p: nat)
    requires Injective(order) && p < |order|
    ensures Injective(Minus(order, p)) && order[p] !in Minus(order, p)
  {
  }

  lemma MinusEnds(order: seq<nat>, p: nat)
    requires p < |order|
    ensures At(Minus(order, p), 0) == if p == 0 then At(order, 1) else At(order, 0)
    ensures At(Minus(order, p), |order| - 2) == if p + 1 == |order| then At(order, p - 1) else At(order, |order| - 1)
  {
  }

  lemma DetachedAt(a: seq<Slot>, t: Thread, head: Link, tail: Link, order: seq<nat>, p: nat, k: nat)
    requires Threaded(a, t, head, tail, order)
    requires p < |order| && k < |order| - 1
    requires Neighbours(a, At(order, p - 1), order[p], At(order, p + 1))
    ensures LinkedAt(Bypassed(a, t, At(order, p - 1), order[p], At(order, p + 1)), t, Minus(order, p), k)
  {
    var j := if k < p then k else k + 1;
    MinusAt(order, p, k);
    assert LinkedAt(a, t, order, j);
    BypassedAt(a, t, At(order, p - 1), order[p], At(order, p + 1), order[j]);
  }

  lemma DetachThreaded(a: seq<Slot>, b: seq<Slot>, t: Thread, head: Link, tail: Link, order: seq<nat>, p: nat)
    requires Threaded(a, t, head, tail, order)
    requires p < |order|
    requires Neighbours(a, At(order, p - 1), order[p], At(order, p + 1))
    requires b == Bypassed(a, t, At(order, p - 1), order[p], At(order, p + 1))
    ensures Threaded(b, t, At(Minus(order, p), 0), At(Minus(order, p), |order| - 2), Minus(order, p))
  {
    var o := Minus(order, p);
    forall k | 0 <= k < |o| ensures LinkedAt(b, t, o, k) { DetachedAt(a, t, head, tail, order, p, k); }
    MinusInjective(order, p);
  }

  // ----- the operations on `&mut CacheInner`, as in-out values

  method PushLruBack(inner: CacheInner, idx: nat, ghost lru: seq<nat>) returns (c: CacheInner)
    requires LruThread(inner, lru)
    requires Occupied(inner.nodes, idx) && idx !in lru
    ensures LruThread(c, lru + [idx])
    ensures OnlyLinks(inner.nodes, c.nodes, Lru)
    ensures c == inner.(nodes := c.nodes, lruHead := c.lruHead, lruTail := c.lruTail)
  {
    TailOccupied(inner.nodes, Lru, inner.lruHead, inner.lruTail, lru, idx);
    c := inner;
    var tail := c.lruTail;
    c := c.(nodes := c.nodes[idx := c.nodes[idx].(lru := Links(tail, End))]);
    if tail.To? {
      c := c.(nodes := c.nodes[tail.slot := c.nodes[tail.slot].(lru := c.nodes[tail.slot].lru.(next := To(idx)))]);
    } else {
      c := c.(lruHead := To(idx));
    }
    c := c.(lruTail := To(idx));
    PushThreaded(inner.nodes, c.nodes, Lru, inner.lruHead, inner.lruTail, lru, idx);
  }

  method DetachLru(inner: CacheInner, idx: nat, ghost lru: seq<nat>, ghost p: nat) returns (c: CacheInner)
    requires LruThread(inner, lru)
    requires p < |lru| && lru[p] == idx
    ensures LruThread(c, Minus(lru, p))
    ensures OnlyLinks(inner.nodes, c.nodes, Lru)
    ensures c == inner.(nodes := c.nodes, lruHead := c.lruHead, lruTail := c.lruTail)
  {
    NeighboursOnThread(inner.nodes, Lru, inner.lruHead, inner.lruTail, lru, p);
    c := inner;
    var prev, next := c.nodes[idx].lru.prev, c.nodes[idx].lru.next;
    if prev.To? {
      c := c.(nodes := c.nodes[prev.slot := c.nodes[prev.slot].(lru := c.nodes[prev.slot].lru.(next := next))]);
    } else {
      c := c.(lruHead := next);
    }
    if next.To? {
      c := c.(nodes := c.nodes[next.slot := c.nodes[next.slot].(lru := c.nodes[next.slot].lru.(prev := prev))]);
    } else {
      c := c.(lruTail := prev);
    }
    c := c.(nodes := c.nodes[idx := c.nodes[idx].(lru := Links(End, End))]);
    assert c.nodes == Bypassed(inner.nodes, Lru, prev, idx, next);
    DetachThreaded(inner.nodes, c.nodes, Lru, inner.lruHead, inner.lruTail, lru, p);
    MinusEnds(lru, p);
    BypassedFrame(inner.nodes, Lru, prev, idx, next);
  }

  method PushTtlBack(inner: CacheInner, idx: nat, ghost age: seq<nat>) returns (c: CacheInner)
    requires TtlThread(inner, age)
    requires Occupied(inner.nodes, idx) && idx !in age
    ensures TtlThread(c, age + [idx])
    ensures OnlyLinks(inner.nodes, c.nodes, Ttl)
    ensures c == inner.(nodes := c.nodes, ttlHead := c.ttlHead, ttlTail := c.ttlTail)
  {
    TailOccupied(inner.nodes, Ttl, inner.ttlHead, inner.ttlTail, age, idx);
    c := inner;
    var tail := c.ttlTail;
    c := c.(nodes := c.nodes[idx := c.nodes[idx].(ttl := Links(tail, End))]);
    if tail.To? {
      c := c.(nodes := c.nodes[tail.slot := c.nodes[tail.slot].(ttl := c.nodes[tail.slot].ttl.(next := To(idx)))]);
    } else {
      c := c.(ttlHead := To(idx));
    }
    c := c.(ttlTail := To(idx));
    PushThreaded(inner.nodes, c.nodes, Ttl, inner.ttlHead, inner.ttlTail, age, idx);
  }

  method DetachTtl(inner: CacheInner, idx: nat, ghost age: seq<nat>, ghost p: nat) returns (c: CacheInner)
    requires TtlThread(inner, age)
    requires p < |age| && age[p] == idx
    ensures TtlThread(c, Minus(age, p))
    ensures OnlyLinks(inner.nodes, c.nodes, Ttl)
    ensures c == inner.(nodes := c.nodes, ttlHead := c.ttlHead, ttlTail := c.ttlTail)
  {
    NeighboursOnThread(inner.nodes, Ttl, inner.ttlHead, inner.ttlTail, age, p);
    c := inner;
    var prev, next := c.nodes[idx].ttl.prev, c.nodes[idx].ttl.next;
    if prev.To? {
      c := c.(nodes := c.nodes[prev.slot := c.nodes[prev.slot].(ttl := c.nodes[prev.slot].ttl.(next := next))]);
    } else {
      c := c.(ttlHead := next);
    }
    if next.To? {
      c := c.(nodes := c.nodes[next.slot := c.nodes[next.slot].(ttl := c.nodes[next.slot].ttl.(prev := prev))]);
    } else {
      c := c.(ttlTail := prev);
    }
    c := c.(nodes := c.nodes[idx := c.nodes[idx].(ttl := Links(End, End))]);
    assert c.nodes == Bypassed(inner.nodes, Ttl, prev, idx, next);
    DetachThreaded(inner.nodes, c.nodes, Ttl, inner.ttlHead, inner.ttlTail, age, p);
    MinusEnds(age, p);
    BypassedFrame(inner.nodes, Ttl, prev, idx, next);
  }

  // ----- frames and membership

  /** Rewriting the links of one thread leaves the other thread alone. */
  lemma ThreadFrame(a: seq<Slot>, b: seq<Slot>, changed: Thread, t: Thread, head: Link, tail: Link, order: seq<nat>)
    requires OnlyLinks(a, b, changed) && changed != t
    requires Threaded(a, t, head, tail, order)
    ensures Threaded(b, t, head, tail, order)
  {
    forall k | 0 <= k < |order| ensures LinkedAt(b, t, order, k) { assert LinkedAt(a, t, order, k); }
  }

  /** `b` holds what `a` holds, except possibly in slot `idx`. */
  ghost predicate SameBut(a: seq<Slot>, b: seq<Slot>, idx: nat) {
    && |a| <= |b|
    && forall i :: 0 <= i < |a| && i != idx ==>
         a[i].Node? == b[i].Node? && (a[i].Node? ==> a[i].entry == b[i].entry)
  }

  ghost function Position(s: seq<nat>, x: nat): (p: nat)
    requires x in s
    ensures p < |s| && s[p] == x
  {
    var p :| 0 <= p < |s| && s[p] == x;
    p
  }

  lemma MinusMembers(s: seq<nat>, p: nat, x: nat)
    requires p < |s| && x in s && x != s[p]
    ensures x in Minus(s, p)
  {
    var k := Position(s, x);
    assert Minus(s, p)[if k < p then k else k - 1] == x;
  }

  lemma ShowsMinus(a: seq<Slot>, b: seq<Slot>, order: seq<nat>, s: seq<Entry>, p: nat)
    requires Shows(a, order, s) && Injective(order) && p < |order| && SameBut(a, b, order[p])
    ensures Shows(b, Minus(order, p), Minus(s, p))
  {
  }

  lemma ByAgeMinus(s: seq<Entry>, clock: nat, q: nat)
    requires ByAge(s, clock) && q < |s|
    ensures ByAge(Minus(s, q), clock)
  {
  }

  lemma KeysDistinct(nodes: seq<Slot>, index: map<CacheKey, nat>, order: seq<nat>, s: seq<Entry>)
    requires Indexed(nodes, index, order) && Injective(order) && Shows(nodes, order, s)
    ensures DistinctKeys(s)
  {
    forall i, j | 0 <= i < j < |s| ensures s[i].key != s[j].key {
      assert index[nodes[order[i]].entry.key] == order[i] && index[nodes[order[j]].entry.key] == order[j];
    }
  }

  lemma ByUseWithoutKey(c: CacheInner, o: Orders, clock: nat, p: nat)
    requires Coherent(c, o, clock) && p < |o.lru|
    ensures o.byUse[p] == c.nodes[o.lru[p]].entry
    ensures Minus(o.byUse, p) == WithoutKey(o.byUse, o.byUse[p].key)
    ensures Lookup(o.byUse, o.byUse[p].key) == Some(o.byUse[p])
  {
    KeysDistinct(c.nodes, c.index, o.lru, o.byUse);
    WithoutKeyAt(o.byUse, p);
  }

  lemma SameButClear(a: seq<Slot>, u: seq<Slot>, idx: nat)
    requires SameBut(a, u, idx) && idx < |u|
    ensures SameBut(a, u[idx := Vacant], idx)
  {
  }

  lemma SameAfterRelinking(a: seq<Slot>, d: seq<Slot>, b: seq<Slot>, idx: nat)
    requires OnlyLinks(a, d, Lru) && OnlyLinks(d, b, Ttl) && Occupied(a, idx)
    ensures |a| == |b| && SameBut(a, b, idx) && Occupied(b, idx) && b[idx].entry == a[idx].entry
  {
  }

  // ----- removal

  ghost function Dropped(o: Orders, p: nat, q: nat): Orders
    requires p < |o.lru| && |o.byUse| == |o.lru| && q < |o.age| && |o.byAge| == |o.age|
  {
    Orders(Minus(o.lru, p), Minus(o.age, q), Minus(o.byUse, p), Minus(o.byAge, q))
  }

  lemma SlotsRemove(a: seq<Slot>, b: seq<Slot>, freeList: seq<nat>, lru: seq<nat>, age: seq<nat>, p: nat, q: nat)
    requires Slots(a, freeList, lru, age)
    requires p < |lru| && q < |age| && lru[p] == age[q]
    requires Occupied(a, lru[p]) && SameBut(a, b, lru[p]) && |a| == |b| && b[lru[p]].Vacant?
    ensures Slots(b, freeList + [lru[p]], Minus(lru, p), Minus(age, q))
  {
    forall i: nat | Occupied(b, i) ensures i in Minus(lru, p) && i in Minus(age, q) {
      assert Occupied(a, i);
      MinusMembers(lru, p, i);
      MinusMembers(age, q, i);
    }
    assert lru[p] !in freeList;
  }

  lemma IndexedRemove(a: seq<Slot>, b: seq<Slot>, index: map<CacheKey, nat>, lru: seq<nat>, lru': seq<nat>, idx: nat)
    requires Indexed(a, index, lru) && |lru'| == |lru| - 1
    requires Occupied(a, idx) && SameBut(a, b, idx) && |a| == |b| && b[idx].Vacant?
    ensures Indexed(b, index - {a[idx].entry.key}, lru')
  {
    var rest := index - {a[idx].entry.key};
    assert rest.Keys == index.Keys - {a[idx].entry.key};
    assert |index.Keys| == |rest.Keys| + 1;
    forall i: nat | Occupied(b, i) ensures b[i].entry.key in rest && rest[b[i].entry.key] == i {
      assert Occupied(a, i);
    }
  }

  lemma ThreadedClear(a: seq<Slot>, t: Thread, head: Link, tail: Link, order: seq<nat>, idx: nat)
    requires Threaded(a, t, head, tail, order)
    requires idx < |a| && idx !in order
    ensures Threaded(a[idx := Vacant], t, head, tail, order)
  {
    var b := a[idx := Vacant];
    forall k | 0 <= k < |order| ensures LinkedAt(b, t, order, k) { assert LinkedAt(a, t, order, k); }
  }

  lemma RemoveStored(index: map<CacheKey, nat>, a: seq<Slot>, b: seq<Slot>, freeList: seq<nat>, o: Orders, clock: nat,
                     p: nat, q: nat)
    requires Stored(index, a, freeList, o, clock) && Injective(o.lru) && Injective(o.age)
    requires p < |o.lru| && q < |o.age| && o.lru[p] == o.age[q]
    requires |a| == |b| && Occupied(a, o.lru[p]) && b[o.lru[p]].Vacant? && SameBut(a, b, o.lru[p])
    ensures Stored(index - {a[o.lru[p]].entry.key}, b, freeList + [o.lru[p]], Dropped(o, p, q), clock)
  {
    ShowsMinus(a, b, o.lru, o.byUse, p);
    ShowsMinus(a, b, o.age, o.byAge, q);
    SlotsRemove(a, b, freeList, o.lru, o.age, p, q);
    IndexedRemove(a, b, index, o.lru, Minus(o.lru, p), o.lru[p]);
    ByAgeMinus(o.byAge, clock, q);
    hide Shows, Slots, Indexed, ByAge;
  }

  /** Emptying a slot that is on neither thread. */
  lemma ClearThreads(u: CacheInner, lru: seq<nat>, age: seq<nat>, idx: nat, c: CacheInner)
    requires LruThread(u, lru) && TtlThread(u, age)
    requires idx < |u.nodes| && idx !in lru && idx !in age
    requires c == u.(index := c.index, nodes := u.nodes[idx := Vacant], freeList := c.freeList)
    ensures LruThread(c, lru) && TtlThread(c, age)
  {
    ThreadedClear(u.nodes, Lru, u.lruHead, u.lruTail, lru, idx);
    ThreadedClear(u.nodes, Ttl, u.ttlHead, u.ttlTail, age, idx);
  }

  method Remove(inner: CacheInner, idx: nat, ghost o: Orders, ghost clock: nat)
    returns (c: CacheInner, ghost o': Orders)
    requires Coherent(inner, o, clock)
    ensures !Occupied(inner.nodes, idx) ==> c == EMPTY_INNER
    ensures Occupied(inner.nodes, idx) ==>
              && Coherent(c, o', clock)
              && |c.nodes| == |inner.nodes|
              && o'.byUse == WithoutKey(o.byUse, inner.nodes[idx].entry.key)
              && |o'.lru| == |o.lru| - 1
  {
    if idx >= |inner.nodes| || inner.nodes[idx].Vacant? {
      return EMPTY_INNER, o;
    }
    ghost var p, q := Position(o.lru, idx), Position(o.age, idx);
    o' := Dropped(o, p, q);
    ByUseWithoutKey(inner, o, clock, p);
    c := DetachLru(inner, idx, o.lru, p);
    ghost var d := c;
    ThreadFrame(inner.nodes, c.nodes, Lru, Ttl, c.ttlHead, c.ttlTail, o.age);
    c := DetachTtl(c, idx, o.age, q);
    ThreadFrame(d.nodes, c.nodes, Ttl, Lru, c.lruHead, c.lruTail, o'.lru);
    ghost var u := c;
    SameAfterRelinking(inner.nodes, d.nodes, u.nodes, idx);
    MinusInjective(o.lru, p);
    MinusInjective(o.age, q);
    hide Stored, Threaded, OnlyLinks, WithoutKey, Minus, SameBut;
    c := c.(index := c.index - {c.nodes[idx].entry.key}, nodes := c.nodes[idx := Vacant],
        freeList := c.freeList + [idx]);
    ClearThreads(u, o'.lru, o'.age, idx, c);
    SameButClear(inner.nodes, u.nodes, idx);
    RemoveStored(inner.index, inner.nodes, c.nodes, inner.freeList, o, clock, p, q);
  }

  method TouchLru(inner: CacheInner, idx: nat, ghost lru: seq<nat>, ghost p: nat) returns (c: CacheInner)
    requires LruThread(inner, lru) && p < |lru| && lru[p] == idx
    ensures LruThread(c, ToBack(lru, p))
    ensures OnlyLinks(inner.nodes, c.nodes, Lru)
    ensures c == inner.(nodes := c.nodes, lruHead := c.lruHead, lruTail := c.lruTail)
  {
    if inner.lruTail == To(idx) {
      assert ToBack(lru, p) == lru;
      return inner;
    }
    c := DetachLru(inner, idx, lru, p);
    MinusInjective(lru, p);
    assert Occupied(inner.nodes, idx) by { assert LinkedAt(inner.nodes, Lru, lru, p); }
    c := PushLruBack(c, idx, Minus(lru, p));
  }

  method TouchTtl(inner: CacheInner, idx: nat, ghost age: seq<nat>, ghost p: nat) returns (c: CacheInner)
    requires TtlThread(inner, age) && p < |age| && age[p] == idx
    ensures TtlThread(c, ToBack(age, p))
    ensures OnlyLinks(inner.nodes, c.nodes, Ttl)
    ensures c == inner.(nodes := c.nodes, ttlHead := c.ttlHead, ttlTail := c.ttlTail)
  {
    if inner.ttlTail == To(idx) {
      assert ToBack(age, p) == age;
      return inner;
    }
    c := DetachTtl(inner, idx, age, p);
    MinusInjective(age, p);
    assert Occupied(inner.nodes, idx) by { assert LinkedAt(inner.nodes, Ttl, age, p); }
    c := PushTtlBack(c, idx, Minus(age, p));
  }

  /** The sequence with the element at `p` moved to the end. */
  ghost function ToBack<T>(s: seq<T>, p: nat): seq<T>
    requires p < |s|
  {
    Minus(s, p) + [s[p]]
  }

  lemma ToBackMembers(s: seq<nat>, p: nat, x: nat)
    requires p < |s| && x in s
    ensures x in ToBack(s, p)
  {
    if x != s[p] { MinusMembers(s, p, x); }
  }

  lemma ShowsToBack(a: seq<Slot>, b: seq<Slot>, order: seq<nat>, s: seq<Entry>, p: nat)
    requires Shows(a, order, s) && Injective(order) && p < |order|
    requires SameBut(a, b, order[p]) && Occupied(b, order[p])
    ensures Shows(b, ToBack(order, p), Minus(s, p) + [b[order[p]].entry])
  {
  }

  /** Moving a slot to the back of the recency thread. */
  lemma TouchStored(index: map<CacheKey, nat>, a: seq<Slot>, b: seq<Slot>, freeList: seq<nat>, o: Orders, clock: nat,
      p: nat)
    requires Stored(index, a, freeList, o, clock) && Injective(o.lru) && p < |o.lru|
    requires OnlyLinks(a, b, Lru)
    ensures Stored(index, b, freeList, o.(lru := ToBack(o.lru, p), byUse := ToBack(o.byUse, p)), clock)
  {
    ShowsToBack(a, b, o.lru, o.byUse, p);
    forall i: nat | Occupied(b, i) ensures i in ToBack(o.lru, p) {
      assert Occupied(a, i);
      ToBackMembers(o.lru, p, i);
    }
  }

  // ----- insertion

  /** Overwriting the entry in a slot and moving the slot to the back of both threads. */
  lemma ReplaceStored(index: map<CacheKey, nat>, a: seq<Slot>, b: seq<Slot>, freeList: seq<nat>, o: Orders, clock: nat,
                      p: nat, q: nat, e: Entry)
    requires Stored(index, a, freeList, o, clock) && Injective(o.lru) && Injective(o.age)
    requires p < |o.lru| && q < |o.age| && o.lru[p] == o.age[q]
    requires |a| == |b| && SameBut(a, b, o.lru[p]) && b[o.lru[p]].Node? && b[o.lru[p]].entry == e
    requires Occupied(a, o.lru[p]) && e.key == a[o.lru[p]].entry.key && clock <= e.insertedAt
    ensures Stored(index, b, freeList,
                   Orders(ToBack(o.lru, p), ToBack(o.age, q), Minus(o.byUse, p) + [e], Minus(o.byAge, q) + [e]),
                   e.insertedAt)
  {
    ShowsToBack(a, b, o.lru, o.byUse, p);
    ShowsToBack(a, b, o.age, o.byAge, q);
    SlotsReplace(a, b, freeList, o.lru, o.age, p, q);
    IndexedReplace(a, b, index, o.lru, ToBack(o.lru, p), o.lru[p]);
    ByAgeMinus(o.byAge, clock, q);
    ByAgeAppend(Minus(o.byAge, q), clock, e);
    hide Shows, Slots, Indexed, ByAge, ToBack, Minus;
  }

  lemma SlotsReplace(a: seq<Slot>, b: seq<Slot>, freeList: seq<nat>, lru: seq<nat>, age: seq<nat>, p: nat, q: nat)
    requires Slots(a, freeList, lru, age) && p < |lru| && q < |age|
    requires Occupied(a, lru[p]) && |a| == |b| && SameBut(a, b, lru[p]) && b[lru[p]].Node?
    ensures Slots(b, freeList, ToBack(lru, p), ToBack(age, q))
  {
    forall i: nat | Occupied(b, i) ensures i in ToBack(lru, p) && i in ToBack(age, q) {
      assert Occupied(a, i);
      ToBackMembers(lru, p, i);
      ToBackMembers(age, q, i);
    }
  }

  lemma IndexedReplace(a: seq<Slot>, b: seq<Slot>, index: map<CacheKey, nat>, lru: seq<nat>, lru': seq<nat>, idx: nat)
    requires Indexed(a, index, lru) && |lru| == |lru'|
    requires Occupied(a, idx) && |a| == |b| && SameBut(a, b, idx) && b[idx].Node?
             && b[idx].entry.key == a[idx].entry.key
    ensures Indexed(b, index, lru')
  {
    forall i: nat | Occupied(b, i) ensures b[i].entry.key in index && index[b[i].entry.key] == i {
      assert Occupied(a, i);
    }
  }

  lemma ByAgeAppend(s: seq<Entry>, clock: nat, e: Entry)
    requires ByAge(s, clock) && clock <= e.insertedAt
    ensures ByAge(s + [e], e.insertedAt)
  {
  }

  /** Filling a slot that was free (or one past the end of the slab). */
  ghost predicate Fills(a: seq<Slot>, freeList: seq<nat>, b: seq<Slot>, freeList': seq<nat>, idx: nat) {
    && idx < |b| && b[idx].Node? && SameBut(a, b, idx)
    && ((freeList != [] && idx == freeList[|freeList| - 1] && freeList' == freeList[..|freeList| - 1] && |b| == |a|)
        || (freeList == [] && idx == |a| && freeList' == [] && |b| == |a| + 1))
  }

  lemma FillsFresh(a: seq<Slot>, freeList: seq<nat>, b: seq<Slot>, freeList': seq<nat>, lru: seq<nat>, age: seq<nat>,
      idx: nat)
    requires Slots(a, freeList, lru, age) && Fills(a, freeList, b, freeList', idx)
    ensures !Occupied(a, idx)
    ensures forall i: nat :: Occupied(b, i) <==> Occupied(a, i) || i == idx
    ensures forall i: nat :: Occupied(a, i) ==> Occupied(b, i) && b[i].entry == a[i].entry
  {
    if freeList != [] { assert freeList[|freeList| - 1] in freeList; }
  }

  lemma SlotsFill(a: seq<Slot>, freeList: seq<nat>, b: seq<Slot>, freeList': seq<nat>, lru: seq<nat>, age: seq<nat>,
      idx: nat)
    requires Slots(a, freeList, lru, age) && Fills(a, freeList, b, freeList', idx)
    ensures Slots(b, freeList', lru + [idx], age + [idx])
  {
    FillsFresh(a, freeList, b, freeList', lru, age, idx);
    if freeList != [] {
      assert freeList == freeList' + [idx];
      forall i: nat ensures i in freeList' <==> i < |b| && b[i].Vacant? {
        assert i in freeList <==> i in freeList' || i == idx;
      }
    }
  }

  lemma IndexedFill(a: seq<Slot>, b: seq<Slot>, index: map<CacheKey, nat>, lru: seq<nat>, idx: nat)
    requires Indexed(a, index, lru) && Occupied(b, idx) && !Occupied(a, idx) && b[idx].entry.key !in index
    requires forall i: nat :: Occupied(b, i) <==> Occupied(a, i) || i == idx
    requires forall i: nat :: Occupied(a, i) ==> Occupied(b, i) && b[i].entry == a[i].entry
    ensures Indexed(b, index[b[idx].entry.key := idx], lru + [idx])
  {
  }

  lemma ShowsAppend(a: seq<Slot>, b: seq<Slot>, order: seq<nat>, s: seq<Entry>, idx: nat)
    requires Shows(a, order, s) && Occupied(b, idx)
    requires forall i: nat :: Occupied(a, i) ==> Occupied(b, i) && b[i].entry == a[i].entry
    ensures Shows(b, order + [idx], s + [b[idx].entry])
  {
  }

  lemma AddStored(index: map<CacheKey, nat>, a: seq<Slot>, freeList: seq<nat>, b: seq<Slot>, freeList': seq<nat>,
                  o: Orders, clock: nat, idx: nat)
    requires Stored(index, a, freeList, o, clock) && Fills(a, freeList, b, freeList', idx)
    requires b[idx].entry.key !in index && clock <= b[idx].entry.insertedAt
    ensures var e := b[idx].entry;
      Stored(index[e.key := idx], b, freeList', Orders(o.lru + [idx], o.age + [idx], o.byUse + [e], o.byAge + [e]),
             e.insertedAt)
  {
    FillsFresh(a, freeList, b, freeList', o.lru, o.age, idx);
    SlotsFill(a, freeList, b, freeList', o.lru, o.age, idx);
    IndexedFill(a, b, index, o.lru, idx);
    ShowsAppend(a, b, o.lru, o.byUse, idx);
    ShowsAppend(a, b, o.age, o.byAge, idx);
    ByAgeAppend(o.byAge, clock, b[idx].entry);
    hide Shows, Slots, Indexed, ByAge;
  }

  // ----- pruning

  /** Waiting does not break the age order. */
  lemma Later(c: CacheInner, o: Orders, clock: nat, now: nat)
    requires Coherent(c, o, clock) && clock <= now
    ensures Coherent(c, o, now)
  {
    hide Threaded, Shows, Slots, Indexed;
  }

  /** If the oldest entry has not expired, no entry has. */
  lemma {:induction false} OldestFresh(c: CacheInner, o: Orders, clock: nat, now: nat, ttl: nat)
    requires Coherent(c, o, clock) && clock <= now
    requires c.ttlHead.To? ==> Occupied(c.nodes, c.ttlHead.slot) && !Expired(c.nodes[c.ttlHead.slot].entry, now, ttl)
    ensures Unexpired(o.byUse, now, ttl) == o.byUse
  {
    forall k | 0 <= k < |o.byUse| ensures !Expired(o.byUse[k], now, ttl) {
      assert Occupied(c.nodes, o.lru[k]);
      var j := Position(o.age, o.lru[k]);
      assert o.byAge[j] == o.byUse[k] && o.byAge[0].insertedAt <= o.byAge[j].insertedAt;
      assert c.ttlHead == To(o.age[0]) && o.byAge[0] == c.nodes[o.age[0]].entry;
    }
    UnexpiredAllFresh(o.byUse, now, ttl);
  }

  lemma HeadOccupied(c: CacheInner, o: Orders, clock: nat)
    requires Coherent(c, o, clock)
    ensures c.ttlHead.To? ==> Occupied(c.nodes, c.ttlHead.slot)
    ensures c.lruHead.To? <==> |c.index| > 0
    ensures c.lruHead.To? ==>
              && Occupied(c.nodes, c.lruHead.slot) && |o.byUse| > 0
              && o.byUse[0] == c.nodes[c.lruHead.slot].entry
    ensures |c.index| == |o.byUse| == |o.lru|
  {
    if o.age != [] { assert LinkedAt(c.nodes, Ttl, o.age, 0); }
    if o.lru != [] { assert LinkedAt(c.nodes, Lru, o.lru, 0); }
  }

  /** Taking an expired entry out does not change the unexpired ones. */
  lemma {:induction false} ExpiredKeyDropped(c: CacheInner, o: Orders, clock: nat, idx: nat, now: nat, ttl: nat)
    requires Coherent(c, o, clock) && Occupied(c.nodes, idx) && Expired(c.nodes[idx].entry, now, ttl)
    ensures Unexpired(WithoutKey(o.byUse, c.nodes[idx].entry.key), now, ttl) == Unexpired(o.byUse, now, ttl)
  {
    var p := Position(o.lru, idx);
    ByUseWithoutKey(c, o, clock, p);
    UnexpiredDrop(o.byUse, p, now, ttl);
  }

  lemma CoherentDistinct(c: CacheInner, o: Orders, clock: nat)
    requires Coherent(c, o, clock)
    ensures DistinctKeys(o.byUse)
  {
    KeysDistinct(c.nodes, c.index, o.lru, o.byUse);
  }

  method PruneLocked(inner: CacheInner, now: nat, ttl: nat, max: nat, ghost o: Orders, ghost clock: nat)
    returns (c: CacheInner, ghost o': Orders)
    requires Coherent(inner, o, clock) && clock <= now
    ensures Coherent(c, o', now)
    ensures o'.byUse == Prune(o.byUse, now, ttl, max)
    ensures |c.nodes| == |inner.nodes|
  {
    c, o' := inner, o;
    hide Coherent, Unexpired, Newest, WithoutKey, DistinctKeys;
    if ttl != 0 {
      while c.ttlHead.To?
        invariant Coherent(c, o', clock)
        invariant Unexpired(o'.byUse, now, ttl) == Unexpired(o.byUse, now, ttl)
        invariant |c.nodes| == |inner.nodes|
        decreases |o'.lru|
      {
        HeadOccupied(c, o', clock);
        var idx := c.ttlHead.slot;
        if idx >= |c.nodes| || c.nodes[idx].Vacant? {
          assert false;
        } else if Since(now, c.nodes[idx].entry.insertedAt) > ttl {
          ExpiredKeyDropped(c, o', clock, idx, now, ttl);
          c, o' := Remove(c, idx, o', clock);
        } else {
          break;
        }
      }
      OldestFresh(c, o', clock, now, ttl);
    }
    ghost var kept := o'.byUse;
    while |c.index| > max
      invariant Coherent(c, o', clock)
      invariant Newest(o'.byUse, max) == Newest(kept, max)
      invariant |c.nodes| == |inner.nodes|
      decreases |o'.lru|
    {
      HeadOccupied(c, o', clock);
      if c.lruHead.End? {
        assert false;
      } else {
        CoherentDistinct(c, o', clock);
        OldestDropped(o'.byUse, max);
        c, o' := Remove(c, c.lruHead.slot, o', clock);
      }
    }
    HeadOccupied(c, o', clock);
    Later(c, o', clock, now);
    NewestShort(o'.byUse, max);
  }

  class LlmResponseCache {
    const maxEntries: nat
    const ttl: nat
    var inner: CacheInner

    /** What the threads spell out, and the latest clock reading. */
    ghost var orders: Orders
    ghost var clock: nat

    ghost predicate Valid()
      reads this
    {
      && Coherent(inner, orders, clock)
      && 1 <= maxEntries
      && |orders.byUse| <= maxEntries
      && |inner.nodes| <= maxEntries + 1
    }

    constructor (maxEntries: nat, ttl: nat)
      ensures Valid() && orders.byUse == []
      ensures this.maxEntries == (if maxEntries == 0 then 1 else maxEntries) && this.ttl == ttl && clock == 0
    {
      this.maxEntries := if maxEntries == 0 then 1 else maxEntries;
      this.ttl := ttl;
      this.inner := EMPTY_INNER;
      this.orders := Orders([], [], [], []);
      this.clock := 0;
    }

    /** `now` is the clock reading of `elapsed`. */
    method Get(key: CacheKey, now: nat) returns (r: Option<string>)
      requires Valid() && clock <= now
      modifies this
      ensures Valid() && clock == now
      ensures (orders.byUse, r) == RecencyList.Get(old(orders.byUse), key, now, ttl)
    {
      hide Coherent, WithoutKey, ToBack, Minus;
      clock := now;
      Later(inner, orders, old(clock), now);
      if key !in inner.index {
        MissingKey(inner, orders, clock, key);
        return None;
      }
      var idx := inner.index[key];
      ghost var p := IndexedPosition(inner, orders, clock, key);
      if idx >= |inner.nodes| || inner.nodes[idx].Vacant? {
        assert false;
      } else if Since(now, inner.nodes[idx].entry.insertedAt) > ttl {
        inner, orders := Remove(inner, idx, orders, clock);
        return None;
      } else {
        var value := inner.nodes[idx].entry.value;
        ghost var o := orders;
        var c := TouchLru(inner, idx, o.lru, p);
        TouchCoherent(inner, c, o, clock, p);
        inner, orders := c, o.(lru := ToBack(o.lru, p), byUse := ToBack(o.byUse, p));
        return Some(value);
      }
    }

    /** `now` is the first clock reading, `later` the one taken while pruning. */
    method Insert(key: CacheKey, value: string, now: nat, later: nat)
      requires Valid() && clock <= now <= later
      modifies this
      ensures Valid() && clock == later
      ensures orders.byUse == RecencyList.Insert(old(orders.byUse), key, value, now, later, ttl, maxEntries)
    {
      hide Coherent, WithoutKey, Newest, Unexpired;
      HeadOccupied(inner, orders, clock);
      ghost var o := orders;
      var c;
      if key in inner.index {
        var idx := inner.index[key];
        ghost var p := IndexedPosition(inner, o, clock, key);
        if idx >= |inner.nodes| || inner.nodes[idx].Vacant? {
          assert false;
        } else {
          c, o := Overwrite(inner, idx, Entry(key, value, now), o, clock);
        }
      } else {
        c, o := Append(inner, Entry(key, value, now), o, clock);
      }
      inner, orders := PruneLocked(c, later, ttl, maxEntries, o, now);
      clock := later;
    }
  }

  /** The branch of `insert` for a key already present. */
  method Overwrite(inner: CacheInner, idx: nat, e: Entry, ghost o: Orders, ghost clock: nat)
    returns (c: CacheInner, ghost o': Orders)
    requires Coherent(inner, o, clock) && clock <= e.insertedAt
    requires Occupied(inner.nodes, idx) && inner.nodes[idx].entry.key == e.key
    ensures Coherent(c, o', e.insertedAt)
    ensures o'.byUse == Put(o.byUse, e.key, e.value, e.insertedAt)
    ensures |c.nodes| == |inner.nodes|
  {
    ghost var p, q := Position(o.lru, idx), Position(o.age, idx);
    o' := Orders(ToBack(o.lru, p), ToBack(o.age, q), Minus(o.byUse, p) + [e], Minus(o.byAge, q) + [e]);
    ByUseWithoutKey(inner, o, clock, p);
    c := inner.(nodes := inner.nodes[idx := inner.nodes[idx].(entry := e)]);
    EntryThreads(inner.nodes, c.nodes, idx, Lru, c.lruHead, c.lruTail, o.lru);
    EntryThreads(inner.nodes, c.nodes, idx, Ttl, c.ttlHead, c.ttlTail, o.age);
    ghost var b := c;
    c := TouchLru(c, idx, o.lru, p);
    ghost var d := c;
    ThreadFrame(b.nodes, d.nodes, Lru, Ttl, c.ttlHead, c.ttlTail, o.age);
    c := TouchTtl(c, idx, o.age, q);
    ThreadFrame(d.nodes, c.nodes, Ttl, Lru, c.lruHead, c.lruTail, o'.lru);
    SameAfterRelinking(b.nodes, d.nodes, c.nodes, idx);
    SameAfterWrite(inner.nodes, b.nodes, c.nodes, idx);
    hide Stored, Threaded, OnlyLinks, WithoutKey, Minus, SameBut, ToBack;
    ReplaceStored(inner.index, inner.nodes, c.nodes, inner.freeList, o, clock, p, q, e);
  }

  /** The branch of `insert` for a new key: reuse a free slot or grow the slab. */
  method Append(inner: CacheInner, e: Entry, ghost o: Orders, ghost clock: nat)
    returns (c: CacheInner, ghost o': Orders)
    requires Coherent(inner, o, clock) && clock <= e.insertedAt
    requires e.key !in inner.index
    ensures Coherent(c, o', e.insertedAt)
    ensures o'.byUse == Put(o.byUse, e.key, e.value, e.insertedAt)
    ensures |c.nodes| == if |inner.nodes| > |o.byUse| then |inner.nodes| else |inner.nodes| + 1
  {
    MissingKey(inner, o, clock, e.key);
    var idx;
    c, idx := Allocate(inner, e, o, clock);
    hide Coherent, Threaded, WithoutKey, Fills;
    ghost var b := c;
    c := c.(index := c.index[e.key := idx]);
    c := PushLruBack(c, idx, o.lru);
    ghost var d := c;
    ThreadFrame(b.nodes, d.nodes, Lru, Ttl, c.ttlHead, c.ttlTail, o.age);
    c := PushTtlBack(c, idx, o.age);
    o' := Orders(o.lru + [idx], o.age + [idx], o.byUse + [e], o.byAge + [e]);
    ThreadFrame(d.nodes, c.nodes, Ttl, Lru, c.lruHead, c.lruTail, o'.lru);
    SameAfterRelinking(b.nodes, d.nodes, c.nodes, idx);
    FillsRelinked(inner.nodes, inner.freeList, b.nodes, c.nodes, c.freeList, idx);
    hide Stored, OnlyLinks, SameBut;
    AddStored(inner.index, inner.nodes, inner.freeList, c.nodes, c.freeList, o, clock, idx);
    CoherentParts(c, o', e.insertedAt);
  }

  lemma CoherentParts(c: CacheInner, o: Orders, clock: nat)
    requires LruThread(c, o.lru) && TtlThread(c, o.age) && Stored(c.index, c.nodes, c.freeList, o, clock)
    ensures Coherent(c, o, clock)
  {
  }

  /** Takes a slot from the free list, or else grows the slab. */
  method Allocate(inner: CacheInner, e: Entry, ghost o: Orders, ghost clock: nat) returns (c: CacheInner, idx: nat)
    requires Coherent(inner, o, clock)
    ensures c == inner.(nodes := c.nodes, freeList := c.freeList)
    ensures Fills(inner.nodes, inner.freeList, c.nodes, c.freeList, idx) && c.nodes[idx].entry == e
    ensures idx !in o.lru && idx !in o.age && LruThread(c, o.lru) && TtlThread(c, o.age)
    ensures Stored(inner.index, inner.nodes, inner.freeList, o, clock)
    ensures |c.nodes| == if |inner.nodes| > |o.byUse| then |inner.nodes| else |inner.nodes| + 1
  {
    var node := Node(e, Links(End, End), Links(End, End));
    if |inner.freeList| > 0 {
      idx := inner.freeList[|inner.freeList| - 1];
      assert idx in inner.freeList;
      c := inner.(nodes := inner.nodes[idx := node], freeList := inner.freeList[..|inner.freeList| - 1]);
    } else {
      idx := |inner.nodes|;
      c := inner.(nodes := inner.nodes + [node]);
    }
    hide Threaded, Indexed, ByAge;
    SlotVacant(inner.nodes, inner.freeList, o.lru, o.age, idx);
    FilledThread(inner.nodes, c.nodes, idx, Lru, c.lruHead, c.lruTail, o.lru);
    FilledThread(inner.nodes, c.nodes, idx, Ttl, c.ttlHead, c.ttlTail, o.age);
  }

  lemma SlotVacant(nodes: seq<Slot>, freeList: seq<nat>, lru: seq<nat>, age: seq<nat>, idx: nat)
    requires Slots(nodes, freeList, lru, age)
    requires idx in freeList || idx == |nodes|
    ensures !Occupied(nodes, idx)
  {
  }

  lemma EntryThreads(a: seq<Slot>, b: seq<Slot>, idx: nat, t: Thread, head: Link, tail: Link, order: seq<nat>)
    requires Threaded(a, t, head, tail, order) && Occupied(a, idx)
    requires Occupied(b, idx) && b == a[idx := a[idx].(entry := b[idx].entry)]
    ensures Threaded(b, t, head, tail, order)
  {
    forall k | 0 <= k < |order| ensures LinkedAt(b, t, order, k) { assert LinkedAt(a, t, order, k); }
  }

  lemma SameAfterWrite(a: seq<Slot>, b: seq<Slot>, c: seq<Slot>, idx: nat)
    requires idx < |a| && |a| == |b| && b == a[idx := b[idx]]
    requires SameBut(b, c, idx)
    ensures SameBut(a, c, idx)
  {
  }

  /** Writing to a slot that is not occupied leaves a thread alone. */
  lemma FilledThread(a: seq<Slot>, b: seq<Slot>, idx: nat, t: Thread, head: Link, tail: Link, order: seq<nat>)
    requires Threaded(a, t, head, tail, order) && !Occupied(a, idx)
    requires |a| <= |b| && forall i :: 0 <= i < |a| && i != idx ==> b[i] == a[i]
    ensures Threaded(b, t, head, tail, order) && idx !in order
  {
    forall k | 0 <= k < |order| ensures LinkedAt(b, t, order, k) && order[k] != idx { assert LinkedAt(a, t, order, k); }
  }

  lemma FillsRelinked(a: seq<Slot>, freeList: seq<nat>, b: seq<Slot>, c: seq<Slot>, freeList': seq<nat>, idx: nat)
    requires Fills(a, freeList, b, freeList', idx) && |b| == |c| && SameBut(b, c, idx) && c[idx].Node?
    ensures Fills(a, freeList, c, freeList', idx)
  {
  }

  lemma {:induction false} MissingKey(c: CacheInner, o: Orders, clock: nat, key: CacheKey)
    requires Coherent(c, o, clock) && key !in c.index
    ensures Lookup(o.byUse, key) == None && WithoutKey(o.byUse, key) == o.byUse
  {
    forall i | 0 <= i < |o.byUse| ensures o.byUse[i].key != key {
      assert Occupied(c.nodes, o.lru[i]);
    }
    WithoutKeyAbsent(o.byUse, key);
  }

  /** The place of a held key in the recency list. */
  lemma IndexedPosition(c: CacheInner, o: Orders, clock: nat, key: CacheKey) returns (p: nat)
    requires Coherent(c, o, clock) && key in c.index
    ensures Occupied(c.nodes, c.index[key]) && c.nodes[c.index[key]].entry.key == key
    ensures p < |o.lru| == |o.byUse| && o.lru[p] == c.index[key] && o.byUse[p] == c.nodes[c.index[key]].entry
    ensures WithoutKey(o.byUse, key) == Minus(o.byUse, p)
    ensures Lookup(o.byUse, key) == Some(o.byUse[p])
    ensures LruThread(c, o.lru)
    ensures ToBack(o.byUse, p) == Minus(o.byUse, p) + [o.byUse[p]]
  {
    p := Position(o.lru, c.index[key]);
    ByUseWithoutKey(c, o, clock, p);
  }

  lemma TouchCoherent(inner: CacheInner, c: CacheInner, o: Orders, clock: nat, p: nat)
    requires Coherent(inner, o, clock) && p < |o.lru| && |o.byUse| == |o.lru|
    requires LruThread(c, ToBack(o.lru, p)) && OnlyLinks(inner.nodes, c.nodes, Lru)
    requires c == inner.(nodes := c.nodes, lruHead := c.lruHead, lruTail := c.lruTail)
    ensures Coherent(c, o.(lru := ToBack(o.lru, p), byUse := ToBack(o.byUse, p)), clock)
  {
    ThreadFrame(inner.nodes, c.nodes, Lru, Ttl, c.ttlHead, c.ttlTail, o.age);
    TouchStored(inner.index, inner.nodes, c.nodes, inner.freeList, o, clock, p);
    hide Threaded, Stored, ToBack;
  }
}
