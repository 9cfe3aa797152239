/** The resolution rate of the analytics page (src/pages/AdminAnalytics.tsx)
    and the colour threshold of the per-department rate column. */
module Analytics {

  /** `total > 0 ? Math.round(resolved / total * 100) : 0`, with the
      quotient taken exactly: the nearest whole percentage, halves rounded
      up, and 0 for an empty collection. */
  function ResolutionRate(resolved: nat, total: nat): (rate: int)
    ensures total == 0 ==> rate == 0
    ensures total > 0 ==> 2 * total * rate - total <= 200 * resolved < 2 * total * rate + total
  {
    if total > 0 then (200 * resolved + total) / (2 * total) else 0
  }

  /** No other whole number lies within half a percent of the exact rate:
      the rounding is determined. */
  lemma RateIsUnique(resolved: nat, total: nat, rate: int)
    requires total > 0
    requires 2 * total * rate - total <= 200 * resolved < 2 * total * rate + total
    ensures rate == ResolutionRate(resolved, total)
  {
    var r := ResolutionRate(resolved, total);
    if rate < r {
      MulMono(2 * total, rate + 1, r);
    } else if r < rate {
      MulMono(2 * total, r + 1, rate);
    }
  }

  lemma MulMono(c: int, a: int, b: int)
    requires c >= 0 && a <= b
    ensures c * a <= c * b
  {
  }

  /** With no more resolved issues than issues, the rate is a percentage,
      and it is 100 when every issue is resolved. */
  lemma RateBounds(resolved: nat, total: nat)
    requires resolved <= total
    ensures 0 <= ResolutionRate(resolved, total) <= 100
    ensures total > 0 && resolved == total ==> ResolutionRate(resolved, total) == 100
    ensures resolved == 0 ==> ResolutionRate(resolved, total) == 0
  {
    if total > 0 {
      var r := ResolutionRate(resolved, total);
      if r < 0 {
        MulMono(2 * total, r, -1);
      }
      if r > 100 {
        MulMono(2 * total, 101, r);
      }
      if resolved == total {
        RateIsUnique(resolved, total, 100);
      }
      if resolved == 0 {
        RateIsUnique(resolved, total, 0);
      }
    }
  }

  /** Worked cases: thirds round to the nearer percentage, an exact half
      rounds up, and an empty collection has rate 0. */
  lemma RateExamples()
    ensures ResolutionRate(1, 3) == 33
    ensures ResolutionRate(2, 3) == 67
    ensures ResolutionRate(1, 8) == 13
    ensures ResolutionRate(0, 0) == 0
  {
    RateIsUnique(1, 3, 33);
    RateIsUnique(2, 3, 67);
    RateIsUnique(1, 8, 13);
  }

  /** Resolving more issues never lowers the rate. */
  lemma RateMonotone(r1: nat, r2: nat, total: nat)
    requires r1 <= r2
    ensures ResolutionRate(r1, total) <= ResolutionRate(r2, total)
  {
    if total > 0 {
      var a, b := ResolutionRate(r1, total), ResolutionRate(r2, total);
      if b < a {
        MulMono(2 * total, b + 1, a);
      }
    }
  }

  /** A rate is shown in the success colour from 50 on, and in the warning
      colour below. */
  predicate SuccessStyle(rate: int)
  {
    rate >= 50
  }

  /** Computed by the same rounding, a rate earns the success colour exactly
      when at least 49.5 percent of the issues are resolved. */
  lemma SuccessThreshold(resolved: nat, total: nat)
    requires total > 0
    ensures SuccessStyle(ResolutionRate(resolved, total)) <==> 200 * resolved >= 99 * total
  {
    var r := ResolutionRate(resolved, total);
    if r >= 50 {
      MulMono(2 * total, 50, r);
    } else {
      MulMono(2 * total, r + 1, 50);
    }
  }
}
