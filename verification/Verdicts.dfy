/**
 Percentages rounded to four decimals, and the verdicts read off them. A percentage is counted in units
 of 0.0001, so 100.0 is 1,000,000; rounding is half to even on the exact ratio.
 */
module Verdicts {

  const HUNDRED_PERCENT: nat := 1_000_000

  /** `n / d` rounded to the nearest integer, ties to even. */
  function RoundHalfEven(n: nat, d: nat): (r: nat)
    requires d > 0
  {
    var q, rest := n / d, n % d;
    if 2 * rest < d then q
    else if 2 * rest > d then q + 1
    else if q % 2 == 0 then q
    else q + 1
  }

  /** `round(part / whole * 100.0, 4)` for a non-empty whole. */
  function Percentage(part: nat, whole: nat): nat
    requires whole > 0
  {
    RoundHalfEven(part * 1_000_000, whole)
  }

  lemma MultiplesApart(a: int, b: int, d: int)
    ensures d > 0 && a < b ==> a * d + d <= b * d
  {
    if d > 0 && a < b {
      assert a * d + d == (a + 1) * d <= b * d;
    }
  }

  lemma SameMultiple(a: int, b: int, d: int)
    ensures d > 0 && a * d == b * d ==> a == b
  {
    MultiplesApart(a, b, d);
    MultiplesApart(b, a, d);
  }

  /** The rounded value is nearest, and even when two are equally near. */
  lemma RoundIsNearest(n: nat, d: nat)
    requires d > 0
    ensures var r := RoundHalfEven(n, d);
            && 2 * n - d <= 2 * (r * d) <= 2 * n + d
            && ((2 * (r * d) == 2 * n - d || 2 * (r * d) == 2 * n + d) ==> r % 2 == 0)
  {
    var q, rest := n / d, n % d;
    assert n == q * d + rest;
    assert (q + 1) * d == q * d + d;
  }

  /** Rounding reaches a whole `k` from below exactly within half a unit, the tie included when `k` is even. */
  lemma RoundsUpTo(k: nat, d: nat, gap: nat)
    requires d > 0 && k % 2 == 0 && gap <= k * d
    ensures RoundHalfEven(k * d - gap, d) == k <==> 2 * gap <= d
  {
    var r := RoundHalfEven(k * d - gap, d);
    RoundIsNearest(k * d - gap, d);
    MultiplesApart(r, k, d);
    MultiplesApart(k, r, d);
    assert (k - 1) * d == k * d - d;
    SameMultiple(r, k - 1, d);
  }

  /**
   The engine's PASS: the success percentage of `matched` out of `matched + failed` shows 100.0 exactly
   when at most one row in two million failed.
   */
  lemma PassBound(matched: nat, failed: nat)
    requires matched + failed > 0
    ensures Percentage(matched, matched + failed) == HUNDRED_PERCENT <==> 2_000_000 * failed <= matched + failed
  {
    var d := matched + failed;
    assert matched * 1_000_000 == 1_000_000 * d - 1_000_000 * failed;
    RoundsUpTo(1_000_000, d, 1_000_000 * failed);
  }

  /** The orphan check's PASS at tolerance 0: an orphan rate that still rounds to 0.0. */
  lemma ZeroBound(orphans: nat, checked: nat)
    requires checked > 0
    ensures Percentage(orphans, checked) == 0 <==> 2_000_000 * orphans <= checked
  {
    RoundIsNearest(orphans * 1_000_000, checked);
    var r := Percentage(orphans, checked);
    MultiplesApart(0, r, checked);
    SameMultiple(r, 1, checked);
  }

  /** Below two million rows the verdict is what a reader expects: PASS means no failed row. */
  lemma SmallRunsAreExact(matched: nat, failed: nat)
    requires 0 < matched + failed < 2_000_000
    ensures Percentage(matched, matched + failed) == HUNDRED_PERCENT <==> failed == 0
  {
    PassBound(matched, failed);
  }

  /** At two million it is not: one failure among 2,000,000 rows passes. */
  lemma PassWithAFailure()
    ensures Percentage(1_999_999, 2_000_000) == HUNDRED_PERCENT
  {
    PassBound(1_999_999, 1);
  }
}
