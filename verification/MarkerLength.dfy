/**
 The omission marker contains the number of omitted characters, so its length depends on what is
 kept, which depends on its length. The truncation code iterates at most eight times; this module
 shows that five rounds always reach a fixpoint, for texts of any size.
 */
module MarkerLength {
  import opened Decimals

  const MARKER_PREFIX := "\n\"[diff truncated: omitted "
  const MARKER_SUFFIX := " chars]\"\n"

  /** `truncation_marker`. */
  function Marker(omitted: nat): string {
    MARKER_PREFIX + Decimal(omitted) + MARKER_SUFFIX
  }

  /** `truncation_marker_len`. */
  function MarkerLen(omitted: nat): nat {
    |MARKER_PREFIX| + |Decimal(omitted)| + |MARKER_SUFFIX|
  }

  lemma MarkerSize(n: nat)
    ensures |Marker(n)| == MarkerLen(n)
  {
  }

  function Minus(a: nat, b: nat): nat { if a >= b then a - b else 0 }

  /**
   The rounds so far: `lens[i]` is the marker length assumed in round `i`, `kepts[i]` what is kept
   under it. What is kept fits the budget, and does not change if the budget shrinks to it.
   */
  ghost predicate Rounds(total: nat, max: nat, lens: seq<nat>, kepts: seq<nat>) {
    && |lens| == |kepts| + 1
    && lens[0] == 0
    && forall i :: 0 <= i < |kepts| ==> RoundAt(total, max, lens, kepts, i)
  }

  ghost predicate RoundAt(total: nat, max: nat, lens: seq<nat>, kepts: seq<nat>, i: nat)
    requires i < |kepts| < |lens|
  {
    && kepts[i] <= total
    && kepts[i] <= Minus(max, lens[i])
    && lens[i + 1] == MarkerLen(total - kepts[i])
    && (i > 0 && kepts[i - 1] <= Minus(max, lens[i]) ==> kepts[i] == kepts[i - 1])
  }

  /** If the marker grows after round `i`, that round kept more than the next budget. */
  lemma RiseMeansTight(total: nat, max: nat, lens: seq<nat>, kepts: seq<nat>, i: nat)
    requires Rounds(total, max, lens, kepts) && i + 2 < |lens| && lens[i + 1] < lens[i + 2]
    ensures Minus(max, lens[i + 1]) < kepts[i] <= Minus(max, lens[i])
    ensures kepts[i] <= total && lens[i + 1] == MarkerLen(total - kepts[i])
  {
    hide MarkerLen, Minus;
    assert RoundAt(total, max, lens, kepts, i) && RoundAt(total, max, lens, kepts, i + 1);
  }

  /** Nine times a power of ten is more than any number of digits can make up for. */
  lemma {:induction false} DigitsAreFew(x: nat)
    requires x >= 1
    ensures 2 * x <= 9 * Pow10(x)
  {
    if x > 1 { DigitsAreFew(x - 1); }
  }

  /** Omitted counts that grow by less than the digits they add cannot gain a digit twice. */
  lemma GrowthContradiction(o2: nat, o3: nat, o4: nat, d1: nat, d2: nat, d3: nat, d4: nat)
    requires 1 <= d1 < d2 < d3 < d4
    requires o2 < Pow10(d2) && Pow10(d4 - 1) <= o4
    requires o3 < o2 + d3 - d1
    ensures o4 >= o3 + d4 - d2
  {
    Pow10Monotone(d2, d4 - 2);
    DigitsAreFew(d4 - 2);
    assert Pow10(d4 - 1) == 10 * Pow10(d4 - 2);
    hide Pow10;
  }

  lemma {:induction false} MarkerGap(m: nat, n: nat)
    ensures MarkerLen(n) - MarkerLen(m) == |Decimal(n)| - |Decimal(m)|
  {
    hide Decimal;
  }

  /** Three tight budgets in a row, each smaller than the last by the digits gained, leave slack in the next. */
  lemma TightRounds(total: nat, b1: nat, b2: nat, b3: nat, b4: nat, d1: nat, d2: nat, d3: nat, d4: nat, k1: nat,
      k2: nat, k3: nat)
    requires 1 <= d1 < d2 < d3 < d4
    requires k1 <= total && k2 <= total && k3 <= total
    requires total - k1 < Pow10(d2) && Pow10(d4 - 1) <= total - k3
    requires b1 - b3 <= d3 - d1 && b2 - b4 <= d4 - d2
    requires k1 <= b1 && b3 < k2 <= b2
    ensures b4 >= k3
  {
    hide Pow10;
    if b4 < k3 {
      GrowthContradiction(total - k1, total - k2, total - k3, d1, d2, d3, d4);
    }
  }

  /** The marker cannot grow five times in a row. */
  lemma NoFiveRises(total: nat, max: nat, lens: seq<nat>, kepts: seq<nat>)
    requires Rounds(total, max, lens, kepts) && |lens| == 6 && |kepts| == 5
    ensures !(lens[1] < lens[2] < lens[3] < lens[4] < lens[5])
  {
    hide MarkerLen, Minus, Rounds;
    if lens[1] < lens[2] < lens[3] < lens[4] < lens[5] {
      RiseMeansTight(total, max, lens, kepts, 0);
      RiseMeansTight(total, max, lens, kepts, 1);
      RiseMeansTight(total, max, lens, kepts, 2);
      RiseMeansTight(total, max, lens, kepts, 3);
      FourRises(total, max, lens[1], lens[2], lens[3], lens[4], kepts[0], kepts[1], kepts[2], kepts[3]);
    }
  }

  lemma FourRises(total: nat, max: nat, m1: nat, m2: nat, m3: nat, m4: nat, k0: nat, k1: nat, k2: nat, k3: nat)
    requires m1 < m2 < m3 < m4
    requires k0 <= total && k1 <= total && k2 <= total && k3 <= total
    requires m1 == MarkerLen(total - k0) && m2 == MarkerLen(total - k1) && m3 == MarkerLen(total - k2)
             && m4 == MarkerLen(total - k3)
    requires k1 <= Minus(max, m1) && Minus(max, m3) < k2 <= Minus(max, m2)
    ensures Minus(max, m4) >= k3
  {
    hide MarkerLen, Decimal, Pow10, Minus;
    MarkerGap(total - k0, total - k1);
    MarkerGap(total - k0, total - k2);
    MarkerGap(total - k0, total - k3);
    DecimalLength(total - k1);
    DecimalLength(total - k3);
    BudgetGap(max, m1, m3);
    BudgetGap(max, m2, m4);
    TightRounds(total, Minus(max, m1), Minus(max, m2), Minus(max, m3), Minus(max, m4), |Decimal(total - k0)|,
                |Decimal(total - k1)|, |Decimal(total - k2)|, |Decimal(total - k3)|, k1, k2, k3);
  }

  lemma BudgetGap(max: nat, a: nat, b: nat)
    requires a <= b
    ensures Minus(max, a) - Minus(max, b) <= b - a
  {
  }
}
