/**
 * Error budgets in integer arithmetic: burn rates in tenths, targets and uptimes
 * in basis points, every quotient rounded down or to the nearest.
 */
module Slo {
  import opened Wrappers

  /** `i64::saturating_mul` of two non-negative numbers. */
  function SaturatingMul(a: nat, b: nat): nat { Min(a * b, I64_MAX) }

  function DownOf(available: int, total: int): nat { Max(total - available, 0) }

  /** The budget in basis points, never none. */
  function BudgetBp(slo: nat): (bp: nat)
    ensures 1 <= bp <= 10_000
  {
    10_000 - Min(slo, 9_999)
  }

  /** `burn_rate_x10` */
  function BurnRateX10(available: int, total: int, slo: nat): int {
    if total <= 0 then 0
    else SaturatingMul(DownOf(available, total), 100_000) / (total * BudgetBp(slo))
  }

  function WindowMinutes(windowDays: nat): nat { windowDays * 24 * 60 }

  /** `budget_minutes` */
  function BudgetMinutes(windowDays: nat, slo: nat): nat {
    WindowMinutes(windowDays) * BudgetBp(slo) / 10_000
  }

  /** `consumed_minutes` */
  function ConsumedMinutes(available: int, total: int, covered: nat): nat {
    if total <= 0 then 0 else SaturatingMul(DownOf(available, total), covered) / total
  }

  /** `remaining_minutes` */
  function RemainingMinutes(windowDays: nat, slo: nat, available: int, total: int): int {
    BudgetMinutes(windowDays, slo) - ConsumedMinutes(available, total, WindowMinutes(windowDays))
  }

  /** `exhausted_in_secs` */
  function ExhaustedInSecs(remaining: int, burnX10: int, slo: nat): Option<int> {
    if burnX10 <= 0 then None
    else if remaining <= 0 then Some(0)
    else Some(SaturatingMul(remaining, 60 * 10 * 10_000) / SaturatingMul(burnX10, BudgetBp(slo)))
  }

  /** `basis_points`: the share rounded to the nearest one. */
  function BasisPoints(part: int, total: int): Option<int> {
    if total > 0 then Some((part * 10_000 + total / 2) / total) else None
  }

  // ---------------------------------------------------------------- quotients

  lemma QuotientBelow(n: int, d: int, q: int)
    requires d > 0
    ensures n / d < q <==> n < q * d
    ensures n / d >= q <==> n >= q * d
  {
    var k := n / d;
    assert k * d <= n < (k + 1) * d;
    if k < q {
      MulOrder(k + 1, q, d);
    } else {
      MulOrder(q, k, d);
    }
  }

  lemma MulOrder(a: int, b: int, d: int)
    requires a <= b && d >= 0
    ensures a * d <= b * d
  {
    assert (b - a) * d >= 0;
  }

  lemma MulStrictly(a: int, b: int, d: int)
    requires a < b && d > 0
    ensures a * d < b * d
  {
    assert (b - a) * d > 0;
  }

  // ---------------------------------------------------------------- the budget

  /** A downtime ratio strictly under the budget's. */
  predicate WithinRatio(available: int, total: int, slo: nat) {
    DownOf(available, total) * 10_000 < total * BudgetBp(slo)
  }

  /**
   * The counts are so large that the product saturates below a burn of 1x, and the downtime is not
   * within the ratio.
   */
  predicate SaturatesLow(available: int, total: int, slo: nat) {
    I64_MAX < 10 * (total * BudgetBp(slo)) <= DownOf(available, total) * 100_000
  }

  /**
   * For all counts: a burn reads under 1x exactly when the downtime is within the ratio, or the
   * product saturates low.
   */
  lemma BurnUnderOneIff(available: int, total: int, slo: nat)
    requires 0 <= available <= total && total > 0
    ensures BurnRateX10(available, total, slo) < 10
      <==> WithinRatio(available, total, slo) || SaturatesLow(available, total, slo)
    ensures (BurnRateX10(available, total, slo) < 10 <==> WithinRatio(available, total, slo))
      <==> !SaturatesLow(available, total, slo)
  {
    var down, d := DownOf(available, total), total * BudgetBp(slo);
    MulStrictly(0, total, BudgetBp(slo));
    QuotientBelow(SaturatingMul(down, 100_000), d, 10);
  }

  /** Downtime within the budget's ratio leaves minutes of any window's budget unspent, through both roundings. */
  lemma WithinRatioLeavesBudget(windowDays: nat, slo: nat, available: int, total: int)
    requires 0 <= available <= total && total > 0
    requires DownOf(available, total) * 10_000 <= total * BudgetBp(slo)
    ensures RemainingMinutes(windowDays, slo, available, total) >= 0
  {
    var window, down, bp := WindowMinutes(windowDays), DownOf(available, total), BudgetBp(slo);
    var consumed := ConsumedMinutes(available, total, window);
    hide WindowMinutes, SaturatingMul, BudgetBp;
    QuotientBelow(SaturatingMul(down, window), total, consumed);
    SaturatingIsLess(down, window);
    CrossMultiply(consumed, total, down, window, bp);
    QuotientBelow(window * bp, 10_000, consumed);
  }

  lemma SaturatingIsLess(a: nat, b: nat)
    ensures SaturatingMul(a, b) <= a * b
  {
  }

  /** `c / w <= d / t` and `d / t <= bp / 10000` give `c / w <= bp / 10000`. */
  lemma CrossMultiply(c: nat, t: nat, d: nat, w: nat, bp: nat)
    requires t > 0 && c * t <= d * w && d * 10_000 <= t * bp
    ensures c * 10_000 <= w * bp
  {
    MulOrder(d * 10_000, t * bp, w);
    Swap(d, 10_000, w);
    Swap(t, bp, w);
    Swap(c, 10_000, t);
    assert (c * 10_000) * t <= (w * bp) * t;
    if c * 10_000 > w * bp {
      MulStrictly(w * bp, c * 10_000, t);
      assert false;
    }
  }

  lemma Swap(a: int, b: int, c: int)
    ensures (a * b) * c == (a * c) * b == (c * b) * a
  {
  }

  lemma WithinRatioMeetsSlo(slo: nat, available: int, total: int)
    requires 0 <= available <= total && total > 0 && slo <= 9_999
    requires DownOf(available, total) * 10_000 <= total * BudgetBp(slo)
    ensures BasisPoints(available, total).value >= slo
  {
    assert total * BudgetBp(slo) == total * 10_000 - slo * total;
    QuotientBelow(available * 10_000 + total / 2, total, slo);
  }

  /**
   * Despite every floor and rounding: a burn rate under 1x over the full window
   * implies that the remaining budget is not negative and that the displayed
   * uptime meets the target.
   */
  lemma BurnUnderOneMeetsTarget(windowDays: nat, slo: nat, available: int, total: int)
    requires 0 <= available <= total && total > 0 && slo <= 9_999
    requires !SaturatesLow(available, total, slo)
    requires BurnRateX10(available, total, slo) < 10
    ensures RemainingMinutes(windowDays, slo, available, total) >= 0
    ensures BasisPoints(available, total).value >= slo
  {
    BurnUnderOneIff(available, total, slo);
    WithinRatioLeavesBudget(windowDays, slo, available, total);
    WithinRatioMeetsSlo(slo, available, total);
  }

  /** The premise is needed, though no database holds such counts: there, a total outage reads as a burn of 0.1x. */
  lemma SaturationHidesTheBurn()
    ensures var total := 5_000_000_000_000_000_000;
      && SaturatesLow(0, total, 9_999)
      && total * BudgetBp(9_999) <= I64_MAX
      && BurnRateX10(0, total, 9_999) == 1
      && BasisPoints(0, total) == Some(0)
  {
    var total := 5_000_000_000_000_000_000;
    QuotientBelow(I64_MAX, total, 1);
    QuotientBelow(I64_MAX, total, 2);
    QuotientBelow(total / 2, total, 0);
    QuotientBelow(total / 2, total, 1);
  }

  // ---------------------------------------------------------------- no quotient loses more than its rounding

  lemma Floored(n: nat, d: nat)
    requires d > 0
    ensures (n / d) * d <= n < (n / d + 1) * d
  {
  }

  lemma NothingCheckedBurnsNothing(windowDays: nat, slo: nat, available: int, total: int)
    requires total <= 0
    ensures BurnRateX10(available, total, slo) == 0 && BasisPoints(available, total).None?
    ensures RemainingMinutes(windowDays, slo, available, total) == BudgetMinutes(windowDays, slo)
  {
  }

  /** The burn rate is the exact ratio in tenths, less than a tenth short. */
  lemma BurnIsWithinATenth(available: int, total: int, slo: nat)
    requires 0 <= available <= total && total > 0 && slo <= 9_999
    ensures var burn, down, d := BurnRateX10(available, total, slo), total - available, total * (10_000 - slo);
      burn * d <= Min(down * 100_000, I64_MAX) < (burn + 1) * d
  {
    MulStrictly(0, total, BudgetBp(slo));
    Floored(Min((total - available) * 100_000, I64_MAX), total * BudgetBp(slo));
  }

  /**
   * The minutes consumed are the share of the window that was down, and the budget that of the target, in
   * whole minutes.
   */
  lemma MinutesAreWhole(windowDays: nat, slo: nat, available: int, total: int)
    requires 0 <= available <= total && total > 0 && slo <= 9_999
    ensures var window, down := windowDays * 1_440, total - available;
      var consumed := ConsumedMinutes(available, total, window);
      var budget := RemainingMinutes(windowDays, slo, available, total) + consumed;
      && consumed * total <= Min(down * window, I64_MAX) < (consumed + 1) * total
      && budget * 10_000 <= window * (10_000 - slo) < (budget + 1) * 10_000
  {
    Floored(Min((total - available) * (windowDays * 1_440), I64_MAX), total);
    Floored(WindowMinutes(windowDays) * BudgetBp(slo), 10_000);
  }

  /**
   * What is left lasts to the second: burnt at this rate for the seconds answered it is not
   * exceeded, and for one more it is.
   */
  lemma ExhaustedToTheSecond(remaining: int, burnX10: int, slo: nat)
    requires slo <= 9_999
    ensures var secs := ExhaustedInSecs(remaining, burnX10, slo);
      var left, rate := Min(Max(remaining, 0) * 6_000_000, I64_MAX), Min(burnX10 * (10_000 - slo), I64_MAX);
      && (secs.Some? <==> burnX10 > 0)
      && (secs.Some? ==> secs.value * rate <= left < (secs.value + 1) * rate)
  {
    if burnX10 <= 0 || remaining <= 0 {
      return;
    }
    MulStrictly(0, burnX10, BudgetBp(slo));
    Floored(Min(remaining * 6_000_000, I64_MAX), Min(burnX10 * BudgetBp(slo), I64_MAX));
  }

  /** The displayed uptime is the nearest basis point. */
  lemma UptimeIsNearest(part: nat, total: nat)
    requires total > 0
    ensures var bp := BasisPoints(part, total);
      bp.Some? && 2 * part * 10_000 - total <= 2 * (bp.value * total) <= 2 * part * 10_000 + total
  {
    Floored(part * 10_000 + total / 2, total);
  }

  /** A whole budget burnt at `x` times the sustainable rate lasts at most an `x`-th of the window. */
  lemma FullBudgetLastsAtMost(windowDays: nat, slo: nat, burnX10: nat)
    requires burnX10 > 0 && burnX10 * BudgetBp(slo) <= I64_MAX
    ensures ExhaustedInSecs(BudgetMinutes(windowDays, slo), burnX10, slo).value * burnX10 <= windowDays * 86_400 * 10
  {
    var budget, bp := BudgetMinutes(windowDays, slo), BudgetBp(slo);
    var secs := ExhaustedInSecs(budget, burnX10, slo).value;
    QuotientBelow(WindowMinutes(windowDays) * bp, 10_000, budget);
    assert budget * 10_000 <= WindowMinutes(windowDays) * bp;
    if budget > 0 {
      MulStrictly(0, burnX10, bp);
      QuotientBelow(SaturatingMul(budget, 6_000_000), burnX10 * bp, secs);
      assert secs * (burnX10 * bp) <= budget * 6_000_000 <= WindowMinutes(windowDays) * bp * 600;
      assert (secs * burnX10) * bp <= (windowDays * 86_400 * 10) * bp by {
        assert secs * (burnX10 * bp) == (secs * burnX10) * bp;
        assert WindowMinutes(windowDays) * bp * 600 == (windowDays * 86_400 * 10) * bp;
      }
      if secs * burnX10 > windowDays * 86_400 * 10 {
        MulStrictly(windowDays * 86_400 * 10, secs * burnX10, bp);
        assert false;
      }
    }
  }
}
