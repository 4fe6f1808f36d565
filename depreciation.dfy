/** The linear depreciation percentage both asset screens compute: elapsed time
    measured in 365-day years, over a horizon of three such years, times 100,
    rounded as `Math.round` does and capped at 100 (with no lower bound). */
module Depreciation {
  import opened Calendar

  const MaxDepreciationYears: int := 3
  const DaysPerYear: int := 365

  /** Three 365-day years in milliseconds. */
  const HorizonMs: int := MaxDepreciationYears * DaysPerYear * MsPerDay

  /** `Math.round(n / d)` for `d > 0`: the nearest integer, halves going up
      (towards positive infinity, also for negative quotients). */
  function RoundHalfUp(n: int, d: int): (r: int)
    requires d > 0
    ensures 2 * d * r <= 2 * n + d < 2 * d * r + 2 * d
  {
    (2 * n + d) / (2 * d)
  }

  /** `Math.min(Math.round(elapsed / 1000 / 60 / 60 / 24 / 365 / 3 * 100), 100)`. */
  function PercentOfLife(elapsedMs: int): (r: int)
    ensures r <= 100
    ensures r == 100 <==> 200 * elapsedMs >= 199 * HorizonMs
    ensures r < 100 ==> 2 * HorizonMs * r <= 200 * elapsedMs + HorizonMs < 2 * HorizonMs * r + 2 * HorizonMs
    ensures r >= 0 <==> 200 * elapsedMs + HorizonMs >= 0
  {
    var raw := RoundHalfUp(100 * elapsedMs, HorizonMs);
    if raw < 100 then raw else 100
  }

  /** Depreciation never decreases as time passes. */
  lemma PercentMonotone(e1: int, e2: int)
    requires e1 <= e2
    ensures PercentOfLife(e1) <= PercentOfLife(e2)
  {
    var h := 2 * HorizonMs;
    assert (200 * e1 + HorizonMs) / h <= (200 * e2 + HorizonMs) / h;
  }

  /** Once the purchase is in the past the percentage is a proper percentage. */
  lemma PercentInRangeWhenPast(e: int)
    requires e >= 0
    ensures 0 <= PercentOfLife(e) <= 100
  {
  }

  /** There is no lower clamp: a purchase date a month in the future gives a negative percentage. */
  lemma PercentNegativeForFuturePurchase()
    ensures PercentOfLife(-30 * MsPerDay) == -3
  {
  }

  /** At the end of the 3 x 365-day horizon, and at any later time, the asset is fully depreciated. */
  lemma PercentFullAfterHorizon(e: int)
    requires e >= HorizonMs
    ensures PercentOfLife(e) == 100
  {
  }

  /** The colours of the depreciation bar, ordered by severity. */
  datatype Colour = Green | Orange | Red {
    function Severity(): nat {
      match this
      case Green => 0
      case Orange => 1
      case Red => 2
    }
  }
}
