/** The regime of one completed candle: unstable rules first, then trending, then ranging. */
module Regimes {
  import opened Domain
  import opened Arbitration

  /** The regime part of the candidate policy. */
  datatype Rules = Rules(
    unstableVolatility: real,
    unstableRange: real,
    trendingFloor: real,
    trendingVolatility: real,
    trendingStreak: int,
    rangingCeiling: real,
    rangingVolatility: real)

  /** What the classifier looks at. */
  datatype Signals = Signals(trendStrength: real, volatilityRatio: real, rangeRatio: real, streak: int)
  {
    /** The observation's own checks: ratios are never negative. */
    predicate Valid() {
      volatilityRatio >= 0.0 && rangeRatio >= 0.0
    }
  }

  function Magnitude(x: int): nat {
    if x < 0 then -x else x
  }

  function Classify(rules: Rules, s: Signals): Regime {
    if s.volatilityRatio >= rules.unstableVolatility then Unstable
    else if s.rangeRatio >= rules.unstableRange then Unstable
    else if Abs(s.trendStrength) >= rules.trendingFloor && s.volatilityRatio < rules.trendingVolatility
            && Magnitude(s.streak) >= rules.trendingStreak then Trending
    else if Abs(s.trendStrength) <= rules.rangingCeiling && s.volatilityRatio <= rules.rangingVolatility then Ranging
    else Indeterminate
  }

  /** Strong enough, calm enough and long enough one way. */
  predicate LooksTrending(rules: Rules, s: Signals) {
    && (s.trendStrength >= rules.trendingFloor || -s.trendStrength >= rules.trendingFloor)
    && s.volatilityRatio < rules.trendingVolatility
    && (s.streak >= rules.trendingStreak || -s.streak >= rules.trendingStreak)
  }

  predicate LooksRanging(rules: Rules, s: Signals) {
    && -rules.rangingCeiling <= s.trendStrength <= rules.rangingCeiling
    && s.volatilityRatio <= rules.rangingVolatility
  }

  predicate LooksUnstable(rules: Rules, s: Signals) {
    s.volatilityRatio >= rules.unstableVolatility || s.rangeRatio >= rules.unstableRange
  }

  /** The four regimes without the order of their rules: each holds exactly when this is so. */
  lemma RegimesAre(rules: Rules, s: Signals)
    ensures Classify(rules, s).Unstable? <==> LooksUnstable(rules, s)
    ensures Classify(rules, s).Trending? <==> !LooksUnstable(rules, s) && LooksTrending(rules, s)
    ensures Classify(rules, s).Ranging? <==>
            !LooksUnstable(rules, s) && !LooksTrending(rules, s) && LooksRanging(rules, s)
    ensures Classify(rules, s).Indeterminate? <==>
            !LooksUnstable(rules, s) && !LooksTrending(rules, s) && !LooksRanging(rules, s)
    // with a floor above the ceiling, the order of the last two rules does not matter
    ensures rules.rangingCeiling < rules.trendingFloor ==> !(LooksTrending(rules, s) && LooksRanging(rules, s))
  {
  }
}
