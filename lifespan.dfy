/** The year-based remaining-life helper: the years of service left to an asset
    bought in `acquisitionYear`, never below zero. The current year is a parameter. */
module Lifespan {

  const DefaultLifeSpanYears: int := 5

  function Max(a: int, b: int): int {
    if a >= b then a else b
  }

  /** `calculateAssetLifeSpan`: the life span minus the age in whole calendar years,
      or 0 once that is not positive. */
  function CalculateAssetLifeSpan(acquisitionYear: int, currentYear: int,
                                  lifeSpanYears: int := DefaultLifeSpanYears): (r: int)
    ensures r >= 0
    ensures r > 0 <==> currentYear - acquisitionYear < lifeSpanYears
    ensures r > 0 ==> r + (currentYear - acquisitionYear) == lifeSpanYears
  {
    var age := currentYear - acquisitionYear;
    var remaining := lifeSpanYears - age;
    if remaining > 0 then remaining else 0
  }

  /** Bought this year: the whole life span, or 0 for a span that is not positive. */
  lemma BoughtThisYear(year: int, lifeSpanYears: int)
    ensures CalculateAssetLifeSpan(year, year, lifeSpanYears) == Max(lifeSpanYears, 0)
  {
  }

  /** With the default span, an asset bought two years ago has three years left. */
  lemma DefaultSpanExample()
    ensures CalculateAssetLifeSpan(2022, 2024) == 3
    ensures CalculateAssetLifeSpan(2019, 2024) == 0
  {
  }

  /** Time only uses life up: the result never increases with the current year and
      never decreases with a later acquisition. */
  lemma LifeSpanMonotone(acq1: int, acq2: int, now1: int, now2: int, lifeSpanYears: int)
    requires acq1 <= acq2 && now1 <= now2
    ensures CalculateAssetLifeSpan(acq1, now2, lifeSpanYears) <= CalculateAssetLifeSpan(acq1, now1, lifeSpanYears)
    ensures CalculateAssetLifeSpan(acq1, now1, lifeSpanYears) <= CalculateAssetLifeSpan(acq2, now1, lifeSpanYears)
  {
  }

  /** For an asset already acquired, the result is at most the whole span. */
  lemma LifeSpanBound(acquisitionYear: int, currentYear: int, lifeSpanYears: int)
    requires acquisitionYear <= currentYear
    ensures CalculateAssetLifeSpan(acquisitionYear, currentYear, lifeSpanYears) <= Max(lifeSpanYears, 0)
  {
  }
}
