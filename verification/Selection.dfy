/**
 Choosing how many pieces (lines, hunks) to keep from both ends of a text under a budget of
 characters.
 */
module Selection {

  /** Characters in the first `i` pieces. */
  function Head(ls: seq<nat>, i: nat): nat
    requires i <= |ls|
  {
    if i == 0 then 0 else Head(ls, i - 1) + ls[i - 1]
  }

  /** Characters in the last `i` pieces. */
  function Tail(ls: seq<nat>, i: nat): nat
    requires i <= |ls|
  {
    if i == 0 then 0 else Tail(ls, i - 1) + ls[|ls| - i]
  }

  function Kept(ls: seq<nat>, p: nat, s: nat): nat
    requires p + s <= |ls|
  {
    Head(ls, p) + Tail(ls, s)
  }

  ghost predicate Feasible(ls: seq<nat>, budget: nat, p: nat, s: nat) {
    p + s <= |ls| && Kept(ls, p, s) <= budget
  }

  predicate Both(p: nat, s: nat) { p > 0 && s > 0 }

  /**
   The choice (p, s) is feasible, keeps both ends if any feasible choice does, and keeps the most
   characters among the feasible choices that agree with it on keeping both ends.
   */
  ghost predicate Best(ls: seq<nat>, budget: nat, p: nat, s: nat) {
    && Feasible(ls, budget, p, s)
    && forall p': nat, s': nat :: Feasible(ls, budget, p', s') ==>
         && (Both(p', s') ==> Both(p, s))
         && (Both(p', s') == Both(p, s) ==> Kept(ls, p', s') <= Kept(ls, p, s))
  }

  lemma {:induction false} HeadMonotone(ls: seq<nat>, i: nat, j: nat)
    requires i <= j <= |ls|
    ensures Head(ls, i) <= Head(ls, j)
  {
    if i < j { HeadMonotone(ls, i, j - 1); }
  }

  lemma {:induction false} TailMonotone(ls: seq<nat>, i: nat, j: nat)
    requires i <= j <= |ls|
    ensures Tail(ls, i) <= Tail(ls, j)
  {
    if i < j { TailMonotone(ls, i, j - 1); }
  }

  lemma {:induction false} HeadPlusTail(ls: seq<nat>, i: nat)
    requires i <= |ls|
    ensures Head(ls, i) + Tail(ls, |ls| - i) == Head(ls, |ls|)
    decreases |ls| - i
  {
    if i < |ls| { HeadPlusTail(ls, i + 1); }
  }

  /** Keeping both ends keeps at least the first and the last piece. */
  lemma BothKeepsEnds(ls: seq<nat>, p: nat, s: nat)
    requires p + s <= |ls| && Both(p, s)
    ensures Kept(ls, p, s) >= Kept(ls, 1, 1)
  {
    HeadMonotone(ls, 1, p);
    TailMonotone(ls, 1, s);
  }

  // ----- how the kept amount depends on the budget

  lemma BestUnique(ls: seq<nat>, b: nat, p: nat, s: nat, p': nat, s': nat)
    requires Best(ls, b, p, s) && Best(ls, b, p', s')
    ensures Kept(ls, p, s) == Kept(ls, p', s')
  {
  }

  /** A larger budget never keeps less, also where it first makes room for both ends. */
  lemma BestMonotone(ls: seq<nat>, b: nat, p: nat, s: nat, b': nat, p': nat, s': nat)
    requires Best(ls, b, p, s) && Best(ls, b', p', s') && b <= b'
    ensures Kept(ls, p, s) <= Kept(ls, p', s')
  {
    assert Feasible(ls, b', p, s);
    if Both(p', s') && !Both(p, s) {
      BothKeepsEnds(ls, p', s');
      assert !Feasible(ls, b, 1, 1);
    }
  }

  /** Shrinking the budget down to what is kept changes nothing. */
  lemma BestStable(ls: seq<nat>, b: nat, p: nat, s: nat, b': nat)
    requires Best(ls, b, p, s) && Kept(ls, p, s) <= b' <= b
    ensures Best(ls, b', p, s)
  {
    forall p': nat, s': nat | Feasible(ls, b', p', s')
      ensures (Both(p', s') ==> Both(p, s)) && (Both(p', s') == Both(p, s) ==> Kept(ls, p', s') <= Kept(ls, p, s))
    {
      assert Feasible(ls, b, p', s');
    }
  }

  // ----- the search

  /** The largest index whose value is at most `maxValue`, or 0 if there is none. */
  method UpperBound(values: seq<nat>, maxValue: nat) returns (idx: nat)
    requires forall i, j :: 0 <= i < j < |values| ==> values[i] <= values[j]
    ensures values != [] ==> idx < |values|
    ensures forall i :: idx < i < |values| ==> values[i] > maxValue
    ensures values != [] && values[0] <= maxValue ==> values[idx] <= maxValue
    ensures values == [] || values[0] > maxValue ==> idx == 0
  {
    var lo, hi := 0, |values|;
    while lo < hi
      invariant 0 <= lo <= hi <= |values|
      invariant forall i :: 0 <= i < lo ==> values[i] <= maxValue
      invariant forall i :: hi <= i < |values| ==> values[i] > maxValue
    {
      var mid := lo + (hi - lo) / 2;
      if values[mid] <= maxValue {
        lo := mid + 1;
      } else {
        hi := mid;
      }
    }
    idx := if lo > 0 then lo - 1 else 0;
  }

  method PartialSums(ls: seq<nat>) returns (prefix: seq<nat>, suffix: seq<nat>)
    ensures |prefix| == |suffix| == |ls| + 1
    ensures forall i :: 0 <= i <= |ls| ==> prefix[i] == Head(ls, i) && suffix[i] == Tail(ls, i)
  {
    prefix, suffix := [0], [0];
    for i := 0 to |ls|
      invariant |prefix| == i + 1 && forall k :: 0 <= k <= i ==> prefix[k] == Head(ls, k)
    {
      prefix := prefix + [prefix[i] + ls[i]];
    }
    for i := 0 to |ls|
      invariant |suffix| == i + 1 && forall k :: 0 <= k <= i ==> suffix[k] == Tail(ls, k)
    {
      suffix := suffix + [suffix[i] + ls[|ls| - 1 - i]];
    }
  }

  /** With `p` pieces kept in front, `s` is the most that fits behind. */
  ghost predicate Greedy(ls: seq<nat>, budget: nat, p: nat, s: nat) {
    Feasible(ls, budget, p, s) && forall s': nat :: Feasible(ls, budget, p, s') ==> s' <= s
  }

  method GreedySuffix(ls: seq<nat>, suffix: seq<nat>, budget: nat, p: nat) returns (s: nat)
    requires |suffix| == |ls| + 1 && forall i :: 0 <= i <= |ls| ==> suffix[i] == Tail(ls, i)
    requires p <= |ls| && Head(ls, p) <= budget
    ensures Greedy(ls, budget, p, s)
  {
    forall i, j | 0 <= i < j < |suffix| ensures suffix[i] <= suffix[j] { TailMonotone(ls, i, j); }
    s := UpperBound(suffix, budget - Head(ls, p));
    ghost var u := s;
    if s > |ls| - p {
      s := |ls| - p;
    }
    TailMonotone(ls, s, u);
    forall s': nat | Feasible(ls, budget, p, s') ensures s' <= s {
      assert suffix[s'] <= budget - Head(ls, p);
    }
  }

  /** Among prefixes shorter than `n`, (p, s) is best in the sense of `Best`. */
  ghost predicate BestBelow(ls: seq<nat>, budget: nat, n: nat, p: nat, s: nat) {
    && Feasible(ls, budget, p, s)
    && forall p': nat, s': nat :: p' < n && Feasible(ls, budget, p', s') ==>
         && (Both(p', s') ==> Both(p, s))
         && (Both(p', s') == Both(p, s) ==> Kept(ls, p', s') <= Kept(ls, p, s))
  }

  lemma BestBelowStep(ls: seq<nat>, budget: nat, n: nat, p: nat, s: nat, g: nat)
    requires n <= |ls| && BestBelow(ls, budget, n, p, s) && Greedy(ls, budget, n, g)
    ensures var better := (Both(n, g) && !Both(p, s)) || (Both(n, g) == Both(p, s) && Kept(ls, n, g) > Kept(ls, p, s));
      if better then BestBelow(ls, budget, n + 1, n, g) else BestBelow(ls, budget, n + 1, p, s)
  {
    forall s': nat | Feasible(ls, budget, n, s')
      ensures (Both(n, s') ==> Both(n, g)) && Kept(ls, n, s') <= Kept(ls, n, g)
    {
      TailMonotone(ls, s', g);
    }
  }

  /** Without a budget nothing but empty pieces fits. */
  lemma ZeroBudget(ls: seq<nat>)
    requires forall i :: 0 <= i < |ls| ==> ls[i] > 0
    ensures Best(ls, 0, 0, 0)
  {
    assert forall p: nat, s: nat :: Feasible(ls, 0, p, s) ==> p == 0 && s == 0;
  }

  /** `select_prefix_suffix_lines`. A zero budget is answered at once, which is best unless pieces are empty. */
  method SelectPrefixSuffix(ls: seq<nat>, budget: nat) returns (p: nat, s: nat, kept: nat)
    ensures Feasible(ls, budget, p, s) && kept == Kept(ls, p, s)
    ensures budget > 0 || (forall i :: 0 <= i < |ls| ==> ls[i] > 0) ==> Best(ls, budget, p, s)
  {
    if |ls| == 0 || budget == 0 {
      if forall i :: 0 <= i < |ls| ==> ls[i] > 0 {
        if budget == 0 { ZeroBudget(ls); }
      }
      return 0, 0, 0;
    }
    var prefix, suffix := PartialSums(ls);
    p, s, kept := 0, 0, 0;
    var both, n := false, 0;
    while n <= |ls|
      invariant n <= |ls| + 1
      invariant BestBelow(ls, budget, n, p, s) && kept == Kept(ls, p, s) && both == Both(p, s)
      decreases |ls| + 1 - n
    {
      if prefix[n] > budget {
        break;
      }
      var g := GreedySuffix(ls, suffix, budget, n);
      BestBelowStep(ls, budget, n, p, s, g);
      var k := prefix[n] + suffix[g];
      if (Both(n, g) && !both) || (Both(n, g) == both && k > kept) {
        p, s, kept, both := n, g, k, Both(n, g);
      }
      n := n + 1;
    }
    forall p': nat, s': nat | Feasible(ls, budget, p', s')
      ensures (Both(p', s') ==> Both(p, s)) && (Both(p', s') == Both(p, s) ==> Kept(ls, p', s') <= Kept(ls, p, s))
    {
      if p' >= n { HeadMonotone(ls, n, p'); }
    }
  }
}
