/**
 What the features mean: the building blocks in plain terms, the identities that tie columns of one row to each other,
 and the agreement with the numbers the baselines use.
 */
module FeatureLaws {
  import opened Wrappers
  import opened Domain
  import opened Features
  import FeatureMatrix
  import Baselines
  import BaselineRules
  import Calibration
  import EntrySelectivity

  // ---------------------------------------------------------------- log returns

  lemma ClosesOverAre(c: seq<Candle>, i: nat, k: nat, j: nat)
    requires j <= k <= i < |c|
    ensures ClosesOver(c, i, k)[j] == c[i - k + j].close
  {
  }

  /** The `k`-th return of a window is the log ratio of two consecutive closes; none is missing. */
  lemma {:induction false} ReturnsAre(f: Maths, closes: seq<real>)
    requires closes != [] && forall k :: 0 <= k < |closes| ==> closes[k] > 0.0
    ensures LogReturns(f, closes).Some?
    ensures forall k :: 0 <= k < |closes| - 1 ==> LogReturns(f, closes).value[k] == f.ln(closes[k + 1] / closes[k])
  {
    if |closes| > 1 {
      var n := |closes| - 1;
      ReturnsAre(f, closes[..n]);
      assert forall k :: 0 <= k < n ==> closes[..n][k] == closes[k];
    }
  }

  /** A logarithm, as far as it matters here: products become sums. */
  ghost predicate IsLogarithm(f: Maths) {
    forall x, y :: x > 0.0 && y > 0.0 ==> f.ln(Calibration.Prod(x, y)) == f.ln(x) + f.ln(y)
  }

  lemma ChainRatios(x: real, y: real, z: real)
    requires x > 0.0 && y > 0.0 && z > 0.0
    ensures x / y > 0.0 && y / z > 0.0
    ensures Calibration.Prod(x / y, y / z) == x / z
  {
    Baselined(x, y);
    Baselined(y, z);
    var a, b := x / y, y / z;
    assert x == a * y && y == b * z;
    Regroup(a, b, z);
    Quotient(x, a * b, z);
  }

  lemma Baselined(x: real, y: real)
    requires x > 0.0 && y > 0.0
    ensures x / y > 0.0
  {
  }

  lemma Regroup(a: real, b: real, z: real)
    ensures a * (b * z) == (a * b) * z
  {
  }

  lemma Quotient(x: real, q: real, z: real)
    requires z > 0.0 && x == q * z
    ensures x / z == q
  {
  }

  lemma LogOfChain(f: Maths, x: real, y: real, z: real)
    requires IsLogarithm(f) && x > 0.0 && y > 0.0 && z > 0.0
    ensures f.ln(x / y) + f.ln(y / z) == f.ln(x / z)
  {
    ChainRatios(x, y, z);
  }

  lemma LogOfOne(f: Maths, x: real)
    requires IsLogarithm(f) && x > 0.0
    ensures f.ln(x / x) == 0.0
  {
    LogOfChain(f, x, x, x);
  }

  lemma RatioIs(f: Maths, x: real, y: real)
    requires x > 0.0 && y > 0.0
    ensures LogRatio(f, x, y).Some? && LogRatio(f, x, y).value == f.ln(x / y)
  {
  }

  lemma SumAppends(values: seq<real>, last: real)
    ensures Calibration.Sum(values + [last]) == Calibration.Sum(values) + last
  {
    assert (values + [last])[..|values|] == values;
  }

  /** The one-candle returns of a window add up to the return across it. */
  lemma {:induction false} ReturnsTelescope(f: Maths, closes: seq<real>)
    requires IsLogarithm(f)
    requires closes != [] && forall k :: 0 <= k < |closes| ==> closes[k] > 0.0
    ensures LogReturns(f, closes).Some?
    ensures Calibration.Sum(LogReturns(f, closes).value) == f.ln(closes[|closes| - 1] / closes[0])
  {
    hide IsLogarithm;
    LogOfOne(f, closes[0]);
    if |closes| > 1 {
      var n := |closes| - 1;
      ReturnsTelescope(f, closes[..n]);
      LogOfChain(f, closes[n], closes[n - 1], closes[0]);
      RatioIs(f, closes[n], closes[n - 1]);
      hide LogRatio;
      SumAppends(LogReturns(f, closes[..n]).value, f.ln(closes[n] / closes[n - 1]));
    }
  }

  ghost predicate PositiveCloses(c: seq<Candle>) {
    forall k :: 0 <= k < |c| ==> c[k].close > 0.0
  }

  /** For every window the returns add up to the lagged return of the row. */
  lemma ReturnsAddUp(f: Maths, c: seq<Candle>, i: nat, window: nat)
    requires IsLogarithm(f) && PositiveCloses(c) && window <= i < |c|
    ensures ReturnsOver(f, c, i, window).Some? && Lagged(f, c, i, window).Some?
    ensures Calibration.Sum(ReturnsOver(f, c, i, window).value) == Lagged(f, c, i, window).value
  {
    hide IsLogarithm, LogReturns, Calibration.Sum, ClosesOver;
    var closes := ClosesOver(c, i, window);
    forall k | 0 <= k < |closes| ensures closes[k] > 0.0 { ClosesOverAre(c, i, window, k); }
    ClosesOverAre(c, i, window, 0);
    ClosesOverAre(c, i, window, window);
    ReturnsTelescope(f, closes);
  }

  /** The acceleration is twice the return over three candles less the one over six. */
  lemma AccelerationIs(f: Maths, c: seq<Candle>, i: nat)
    requires IsLogarithm(f) && PositiveCloses(c) && LOOKBACK <= i < |c|
    ensures Lagged(f, c, i, 3).Some? && Lagged(f, c, i, 6).Some?
    ensures MomentumGroup(f, c, i)[4].Some?
    ensures MomentumGroup(f, c, i)[4].value == 2.0 * Lagged(f, c, i, 3).value - Lagged(f, c, i, 6).value
  {
    hide IsLogarithm, PositiveFraction, FromHigh, FromLow, LogRatio, Minus;
    var now, third, sixth := Ago(c, i, 0).close, Ago(c, i, 3).close, Ago(c, i, 6).close;
    assert now > 0.0 && third > 0.0 && sixth > 0.0;
    hide Ago, PositiveCloses;
    RatioIs(f, now, third);
    RatioIs(f, now, sixth);
    RatioIs(f, third, sixth);
    LogOfChain(f, now, third, sixth);
    MinusIs(Lagged(f, c, i, 3), LogRatio(f, third, sixth));
    assert MomentumGroup(f, c, i)[4] == Minus(Lagged(f, c, i, 3), LogRatio(f, third, sixth));
  }

  lemma MinusIs(a: Option<real>, b: Option<real>)
    requires a.Some? && b.Some?
    ensures Minus(a, b).Some? && Minus(a, b).value == a.value - b.value
  {
  }

  // ---------------------------------------------------------------- streaks and medians

  /** The streak is the number of trailing values with the sign of the last one, and no more; zero has no streak. */
  lemma {:induction false} RunsAre(values: seq<real>, sign: int)
    ensures SignRun(values, sign) <= |values|
    ensures forall k :: |values| - SignRun(values, sign) <= k < |values| ==> Sign(values[k]) == sign
    ensures SignRun(values, sign) < |values| ==> Sign(values[|values| - SignRun(values, sign) - 1]) != sign
  {
    if values != [] && Sign(values[|values| - 1]) == sign {
      var front := values[..|values| - 1];
      RunsAre(front, sign);
      assert forall k :: 0 <= k < |front| ==> front[k] == values[k];
    }
  }

  lemma StreakIs(values: seq<real>)
    requires values != []
    ensures var n, last := Streak(values), Sign(values[|values| - 1]);
            && n <= |values| && (n == 0 <==> last == 0)
            && (forall k :: |values| - n <= k < |values| ==> Sign(values[k]) == last)
            && (last != 0 && n < |values| ==> Sign(values[|values| - n - 1]) != last)
  {
    RunsAre(values, Sign(values[|values| - 1]));
  }

  lemma MixedHalf(low: real, high: real, k: nat)
    ensures EntrySelectivity.Mix(low, high, k, k as real + 0.5) == (low + high) / 2.0
  {
  }

  lemma HalfPosition(n: nat)
    requires n >= 1
    ensures EntrySelectivity.Share((n - 1) as real, 0.5) == (n - 1) as real / 2.0
  {
  }

  /** The median is the quantile at one half. */
  lemma MedianIsHalfQuantile(values: seq<real>)
    requires values != []
    ensures EntrySelectivity.LinearQuantile(values, 0.5) == Ok(Median(values))
  {
    EntrySelectivity.SortedSorts(values);
    EntrySelectivity.QuantileReads(values, 0.5);
    var ordered := EntrySelectivity.Sorted(values);
    var n := |values|;
    var x := EntrySelectivity.Position(n, 0.5);
    HalfPosition(n);
    hide EntrySelectivity.Sorted, EntrySelectivity.LinearQuantile;
    if n % 2 == 1 {
      assert x == (n / 2) as real && x.Floor == n / 2;
      EntrySelectivity.NoShare(if n / 2 + 1 <= n - 1 then ordered[n / 2 + 1] - ordered[n / 2] else 0.0);
      ReadAtRank(ordered, n / 2);
    } else {
      var k := n / 2 - 1;
      assert x == k as real + 0.5;
      EntrySelectivity.ReadInterpolates(ordered, k, x);
      MixedHalf(ordered[k], ordered[k + 1], k);
    }
  }

  lemma ReadAtRank(ordered: seq<real>, k: nat)
    requires k < |ordered|
    ensures EntrySelectivity.ReadAt(ordered, k as real) == ordered[k]
  {
    var upper := if k + 1 <= |ordered| - 1 then k + 1 else |ordered| - 1;
    EntrySelectivity.NoShare(ordered[upper] - ordered[k]);
    hide EntrySelectivity.Share;
  }

  // ---------------------------------------------------------------- the numbers the baselines use

  lemma TailRanges(c: seq<Candle>, i: nat, window: nat, k: nat)
    requires k < window <= i < |c|
    ensures RangesOver(c, i, window)[k] == Baselines.TrueRange(c, i - window + 1 + k)
  {
  }

  lemma {:induction false} SumOfRanges(c: seq<Candle>, i: nat, window: nat, n: nat)
    requires n <= window <= i < |c|
    ensures Calibration.Sum(RangesOver(c, i, window)[..n])
            == Baselines.RangeSum(c, i - window + 1, i - window + 1 + n)
  {
    hide RangesOver, Baselines.TrueRange;
    if n > 0 {
      SumOfRanges(c, i, window, n - 1);
      var ranges := RangesOver(c, i, window);
      assert ranges[..n][..n - 1] == ranges[..n - 1] && ranges[..n][n - 1] == ranges[n - 1];
      TailRanges(c, i, window, n - 1);
    }
  }

  /** Features and baselines measure the average true range alike. */
  lemma AtrIsBaselines(c: seq<Candle>, i: nat)
    requires LOOKBACK <= i < |c|
    ensures Baselines.Atr24(c, i) == Some(Atr(c, i, 24))
  {
    SumOfRanges(c, i, 24, 24);
    var ranges := RangesOver(c, i, 24);
    assert ranges[..24] == ranges;
    hide RangesOver, Calibration.Sum, Baselines.RangeSum;
  }

  lemma {:induction false} SumOfCloses(c: seq<Candle>, i: nat, window: nat, n: nat)
    requires n <= window <= i < |c| && window > 0
    ensures Calibration.Sum(ClosesOver(c, i, window - 1)[..n])
            == Baselines.CloseSum(c, i - window + 1, i - window + 1 + n)
  {
    hide ClosesOver;
    if n > 0 {
      SumOfCloses(c, i, window, n - 1);
      var closes := ClosesOver(c, i, window - 1);
      assert closes[..n][..n - 1] == closes[..n - 1] && closes[..n][n - 1] == closes[n - 1];
      ClosesOverAre(c, i, window - 1, n - 1);
    }
  }

  lemma SquareByName(x: real)
    ensures Calibration.Prod(x, x) == x * x
  {
  }

  lemma {:induction false} SumOfSquares(c: seq<Candle>, i: nat, window: nat, n: nat, mean: real)
    requires n <= window <= i < |c| && window > 0
    ensures var closes := ClosesOver(c, i, window - 1)[..n];
            Calibration.Cross(closes, closes, mean, mean)
            == Baselines.SquareSum(c, i - window + 1, i - window + 1 + n, mean)
  {
    hide ClosesOver, Calibration.Prod;
    if n > 0 {
      SumOfSquares(c, i, window, n - 1, mean);
      var closes := ClosesOver(c, i, window - 1);
      assert closes[..n][..n - 1] == closes[..n - 1] && closes[..n][n - 1] == closes[n - 1];
      ClosesOverAre(c, i, window - 1, n - 1);
      SquareByName(closes[n - 1] - mean);
    }
  }

  /** A square root, where there is one. */
  ghost predicate IsRoot(f: Maths) {
    forall x :: x >= 0.0 ==> f.root(x) >= 0.0 && f.root(x) * f.root(x) == x
  }

  lemma DeviationIsRoot(f: Maths, c: seq<Candle>, i: nat)
    requires LOOKBACK <= i < |c|
    ensures Mean(ClosesOver(c, i, 23)) == BaselineRules.Mean24(c, i)
    ensures Deviation(f, ClosesOver(c, i, 23)) == f.root(BaselineRules.Variance24(c, i))
  {
    var closes := ClosesOver(c, i, 23);
    assert closes[..24] == closes;
    SumOfCloses(c, i, 24, 24);
    SumOfSquares(c, i, 24, 24, Mean(closes));
    hide ClosesOver, Calibration.Sum, Calibration.Cross, Baselines.CloseSum, Baselines.SquareSum;
  }

  /** The score the mean-reversion baseline trades on is the feature `close_zscore_24`. */
  lemma ZscoreIsBaselines(f: Maths, c: seq<Candle>, i: nat)
    requires LOOKBACK <= i < |c| && IsRoot(f)
    ensures BaselineRules.Variance24(c, i) >= 0.0
    ensures var root := f.root(BaselineRules.Variance24(c, i));
            && root >= 0.0 && root * root == BaselineRules.Variance24(c, i)
            && Reversion(f, c, i, 24)[0] == BaselineRules.Score(c, i, root)
  {
    BaselineRules.SquareSumVanishesIff(c, i - 23, i + 1, BaselineRules.Mean24(c, i));
    DeviationIsRoot(f, c, i);
    hide Baselines.CloseSum, Baselines.SquareSum, ClosesOver, Mean, Deviation, Median, Atr, Calibration.Largest,
         Calibration.Smallest, BaselineRules.Mean24;
  }

  // ---------------------------------------------------------------- columns of one row

  /** A row exists exactly when every value is defined, and then it is those values. */
  lemma {:induction false} CollectIs(options: seq<Option<real>>)
    ensures Collect(options).Some? <==> forall k :: 0 <= k < |options| ==> options[k].Some?
    ensures Collect(options).Some? ==> forall k :: 0 <= k < |options| ==> options[k] == Some(Collect(options).value[k])
  {
    if options != [] {
      var n := |options| - 1;
      CollectIs(options[..n]);
      assert forall k :: 0 <= k < n ==> options[..n][k] == options[k];
    }
  }

  /** The part of a row that starts at column `from` is the given group. */
  ghost predicate Holds(v: seq<real>, from: nat, group: seq<Option<real>>) {
    from + |group| <= |v| && forall k :: 0 <= k < |group| ==> group[k] == Some(v[from + k])
  }

  ghost predicate Placed(all: seq<Option<real>>, from: nat, group: seq<Option<real>>) {
    from + |group| <= |all| && all[from..from + |group|] == group
  }

  lemma PlacedHolds(all: seq<Option<real>>, v: seq<real>, from: nat, group: seq<Option<real>>)
    requires |v| == |all| && Placed(all, from, group) && forall k :: 0 <= k < |all| ==> all[k] == Some(v[k])
    ensures Holds(v, from, group)
  {
    forall k | 0 <= k < |group| ensures group[k] == Some(v[from + k]) {
      assert group[k] == all[from..from + |group|][k];
    }
  }

  lemma Append(front: seq<Option<real>>, group: seq<Option<real>>)
    ensures Placed(front + group, |front|, group)
    ensures forall from: nat, other :: Placed(front, from, other) ==> Placed(front + group, from, other)
  {
    var all := front + group;
    forall from: nat, other | Placed(front, from, other) ensures Placed(all, from, other) {
      assert all[from..from + |other|] == front[from..from + |other|];
    }
  }

  /** Where each group stands in a row, in the order of the registry. */
  lemma GroupsArePlaced(f: Maths, c: seq<Candle>, i: nat)
    requires LOOKBACK <= i < |c|
    ensures var all := Groups(f, c, i);
            && Placed(all, 0, ReturnGroup(f, c, i)) && Placed(all, 7, MomentumGroup(f, c, i))
            && Placed(all, 16, TrendGroup(f, c, i)) && Placed(all, 34, VolatilityGroup(f, c, i))
            && Placed(all, 42, StructureGroup(c, i)) && Placed(all, 48, Reversion(f, c, i, 12))
            && Placed(all, 52, Reversion(f, c, i, 24)) && Placed(all, 56, Reversion(f, c, i, 42))
            && Placed(all, 60, VolumeGroup(f, c, i)) && Placed(all, 71, RegimeGroup(f, c, i))
  {
    GroupLengths(f, c, i);
    hide Placed, ReturnGroup, MomentumGroup, TrendGroup, VolatilityGroup, StructureGroup, Reversion, VolumeGroup,
         RegimeGroup;
    TenGroups(ReturnGroup(f, c, i), MomentumGroup(f, c, i), TrendGroup(f, c, i), VolatilityGroup(f, c, i),
              StructureGroup(c, i), Reversion(f, c, i, 12), Reversion(f, c, i, 24), Reversion(f, c, i, 42),
              VolumeGroup(f, c, i), RegimeGroup(f, c, i));
  }

  lemma GroupLengths(f: Maths, c: seq<Candle>, i: nat)
    requires LOOKBACK <= i < |c|
    ensures |ReturnGroup(f, c, i)| == 7 && |MomentumGroup(f, c, i)| == 9 && |TrendGroup(f, c, i)| == 18
    ensures |VolatilityGroup(f, c, i)| == 8 && |StructureGroup(c, i)| == 6 && |VolumeGroup(f, c, i)| == 11
    ensures |RegimeGroup(f, c, i)| == 3
    ensures forall window: nat :: 0 < window <= i ==> |Reversion(f, c, i, window)| == 4
  {
    hide Divide, EmaDistance, EmaSlope, EmaSpread, Consistency, Lagged, PositiveFraction, FromHigh, FromLow, Volatility,
         Atr, RollingLocation, CurrentRange, VolumeChange, VolumeScore, MedianVolumeRatio, Both, Mean, Median,
         Deviation, ClosesOver, Spreads, Streak;
  }

  lemma TenGroups(
    g0: seq<Option<real>>, g1: seq<Option<real>>, g2: seq<Option<real>>, g3: seq<Option<real>>,
    g4: seq<Option<real>>, g5: seq<Option<real>>, g6: seq<Option<real>>, g7: seq<Option<real>>,
    g8: seq<Option<real>>, g9: seq<Option<real>>)
    requires |g0| == 7 && |g1| == 9 && |g2| == 18 && |g3| == 8 && |g4| == 6 && |g5| == 4 && |g6| == 4 && |g7| == 4
    ensures |g8| == 11 ==>
              var all := g0 + g1 + g2 + g3 + g4 + g5 + g6 + g7 + g8 + g9;
              && Placed(all, 0, g0) && Placed(all, 7, g1) && Placed(all, 16, g2) && Placed(all, 34, g3)
              && Placed(all, 42, g4) && Placed(all, 48, g5) && Placed(all, 52, g6) && Placed(all, 56, g7)
              && Placed(all, 60, g8) && Placed(all, 71, g9)
  {
    assert Placed(g0, 0, g0);
    hide Placed;
    Append(g0, g1);
    Append(g0 + g1, g2);
    Append(g0 + g1 + g2, g3);
    Append(g0 + g1 + g2 + g3, g4);
    Append(g0 + g1 + g2 + g3 + g4, g5);
    Append(g0 + g1 + g2 + g3 + g4 + g5, g6);
    Append(g0 + g1 + g2 + g3 + g4 + g5 + g6, g7);
    Append(g0 + g1 + g2 + g3 + g4 + g5 + g6 + g7, g8);
    Append(g0 + g1 + g2 + g3 + g4 + g5 + g6 + g7 + g8, g9);
  }

  /** An eligible row holds every group at its place. */
  ghost predicate IsRow(f: Maths, c: seq<Candle>, i: nat, v: seq<real>)
    requires LOOKBACK <= i < |c|
  {
    && |v| == WIDTH
    && Holds(v, 0, ReturnGroup(f, c, i)) && Holds(v, 7, MomentumGroup(f, c, i)) && Holds(v, 16, TrendGroup(f, c, i))
    && Holds(v, 34, VolatilityGroup(f, c, i)) && Holds(v, 42, StructureGroup(c, i))
    && Holds(v, 48, Reversion(f, c, i, 12)) && Holds(v, 52, Reversion(f, c, i, 24))
    && Holds(v, 56, Reversion(f, c, i, 42)) && Holds(v, 60, VolumeGroup(f, c, i)) && Holds(v, 71, RegimeGroup(f, c, i))
  }

  lemma RowsAre(f: Maths, c: seq<Candle>, i: nat)
    requires LOOKBACK <= i < |c| && ComputeValues(f, c, i).Some?
    ensures IsRow(f, c, i, ComputeValues(f, c, i).value)
  {
    hide Groups, Placed, Holds, ReturnGroup, MomentumGroup, TrendGroup, VolatilityGroup, StructureGroup, Reversion,
         VolumeGroup, RegimeGroup, Collect;
    var all, v := Groups(f, c, i), ComputeValues(f, c, i).value;
    CollectIs(all);
    GroupsArePlaced(f, c, i);
    PlacedHolds(all, v, 0, ReturnGroup(f, c, i));
    PlacedHolds(all, v, 7, MomentumGroup(f, c, i));
    PlacedHolds(all, v, 16, TrendGroup(f, c, i));
    PlacedHolds(all, v, 34, VolatilityGroup(f, c, i));
    PlacedHolds(all, v, 42, StructureGroup(c, i));
    PlacedHolds(all, v, 48, Reversion(f, c, i, 12));
    PlacedHolds(all, v, 52, Reversion(f, c, i, 24));
    PlacedHolds(all, v, 56, Reversion(f, c, i, 42));
    PlacedHolds(all, v, 60, VolumeGroup(f, c, i));
    PlacedHolds(all, v, 71, RegimeGroup(f, c, i));
  }

  lemma QuotientsSubtract(a: real, b: real, d: real)
    requires d != 0.0
    ensures a / d - b / d == (a - b) / d
  {
  }

  lemma QuotientTimes(a: real, d: real)
    requires d != 0.0
    ensures Calibration.Prod(a / d, d) == a
  {
  }

  /** A spread is the difference of two distances. */
  lemma SpreadIsDistances(close: real, fast: real, slow: real)
    ensures Divide(fast - slow, close) == Minus(Divide(close - slow, close), Divide(close - fast, close))
  {
    if close != 0.0 { QuotientsSubtract(close - slow, close - fast, close); }
  }

  lemma TrendColumns(f: Maths, c: seq<Candle>, i: nat, v: seq<real>)
    requires LOOKBACK <= i < |c| && |v| == WIDTH && Holds(v, 16, TrendGroup(f, c, i))
    ensures v[20] == v[18] - v[16] && v[21] == v[19] - v[17] && v[22] == v[19] - v[18]
    ensures Divide(EmaSpread(c, i, 12, 42), Ago(c, i, 0).close) == Some(v[21])
  {
    hide Divide, EmaBack, EmaSlope, Consistency, Ago;
    var close := Ago(c, i, 0).close;
    SpreadIsDistances(close, EmaBack(c, i, 6, 0), EmaBack(c, i, 24, 0));
    SpreadIsDistances(close, EmaBack(c, i, 12, 0), EmaBack(c, i, 42, 0));
    SpreadIsDistances(close, EmaBack(c, i, 24, 0), EmaBack(c, i, 42, 0));
    var g := TrendGroup(f, c, i);
    assert g[0] == Some(v[16]) && g[1] == Some(v[17]) && g[2] == Some(v[18]) && g[3] == Some(v[19]);
    assert g[4] == Some(v[20]) && g[5] == Some(v[21]) && g[6] == Some(v[22]);
  }

  lemma OppositeQuotient(a: real, b: real, d: real)
    requires d != 0.0
    ensures (a - b) / d == -((b - a) / d)
  {
  }

  lemma FallIsDistance(close: real, high: real)
    ensures Divide(high - close, high).Some? <==> Divide(close - high, high).Some?
    ensures Divide(high - close, high).Some? ==>
              Divide(high - close, high).value == -Divide(close - high, high).value
  {
    if high != 0.0 { OppositeQuotient(high, close, high); }
  }

  lemma WindowDistances(f: Maths, c: seq<Candle>, i: nat, window: nat)
    requires 0 < window <= i < |c| && LOOKBACK <= i
    ensures var r, high := Reversion(f, c, i, window), FromHigh(c, i, window);
            && |r| == 4
            && (r[2].Some? && high.Some? ==> r[2].value == -high.value)
            && r[3] == FromLow(c, i, window)
  {
    hide Divide, ClosesOver, Mean, Median, Deviation, Atr, Ago, Calibration.Largest, Calibration.Smallest;
    var close, high := Ago(c, i, 0).close, Calibration.Largest(ClosesOver(c, i, window - 1));
    FallIsDistance(close, high);
    assert FromHigh(c, i, window) == Divide(close - high, high);
    assert Reversion(f, c, i, window)[2] == Divide(high - close, high);
  }

  /** The drawdown and the rebound of a window are its distances from high and low. */
  lemma ReversionColumns(f: Maths, c: seq<Candle>, i: nat, v: seq<real>)
    requires LOOKBACK <= i < |c| && |v| == WIDTH && Holds(v, 7, MomentumGroup(f, c, i))
    requires Holds(v, 48, Reversion(f, c, i, 12)) && Holds(v, 56, Reversion(f, c, i, 42))
    ensures v[50] == -v[12] && v[51] == v[13] && v[58] == -v[14] && v[59] == v[15]
  {
    hide FromHigh, FromLow, PositiveFraction, Lagged, LogRatio, Minus, Reversion;
    WindowDistances(f, c, i, 12);
    WindowDistances(f, c, i, 42);
    var g, r, s := MomentumGroup(f, c, i), Reversion(f, c, i, 12), Reversion(f, c, i, 42);
    assert g[5] == Some(v[12]) && g[6] == Some(v[13]) && g[7] == Some(v[14]) && g[8] == Some(v[15]);
    assert r[2] == Some(v[50]) && r[3] == Some(v[51]) && s[2] == Some(v[58]) && s[3] == Some(v[59]);
  }

  lemma FractionInUnit(x: real, d: real)
    requires 0.0 <= x <= d && d != 0.0
    ensures 0.0 <= x / d <= 1.0
  {
  }

  lemma ThreeShares(a: real, b: real, x: real, d: real)
    requires d != 0.0 && a + b + x == d
    ensures a / d + b / d + x / d == 1.0
  {
  }

  lemma SharesAdd(a: real, b: real, d: real)
    requires d != 0.0
    ensures a / d + b / d == (a + b) / d
  {
  }

  /** Body and wicks share the candle, and the close lies where lower wick and body put it. */
  lemma CandleShares(now: Candle)
    requires now.low <= Min(now.open, now.close) && Max(now.open, now.close) <= now.high && now.high != now.low
    ensures var range := now.high - now.low;
            var body, upper, lower := Abs(now.close - now.open) / range, (now.high - Max(now.open, now.close)) / range,
                                      (Min(now.open, now.close) - now.low) / range;
            && 0.0 <= body && 0.0 <= upper && 0.0 <= lower && body + upper + lower == 1.0
            && (now.close - now.low) / range == lower + if now.close > now.open then body else 0.0
  {
    var range := now.high - now.low;
    var a, b, x := Abs(now.close - now.open), now.high - Max(now.open, now.close), Min(now.open, now.close) - now.low;
    FractionInUnit(a, range);
    FractionInUnit(b, range);
    FractionInUnit(x, range);
    ThreeShares(a, b, x, range);
    if now.close > now.open { SharesAdd(x, a, range); }
  }

  lemma StructureColumns(c: seq<Candle>, i: nat, v: seq<real>)
    requires LOOKBACK <= i < |c| && FeatureMatrix.Usable(c) && |v| == WIDTH && Holds(v, 42, StructureGroup(c, i))
    ensures 0.0 <= v[42] && 0.0 <= v[43] && 0.0 <= v[44] && v[42] + v[43] + v[44] == 1.0
    ensures v[45] == v[44] + if c[i].close > c[i].open then v[42] else 0.0
    ensures 0.0 <= v[46] <= 1.0 && 0.0 <= v[47] <= 1.0
  {
    assert FeatureMatrix.SoundRow(c, i);
    var g := StructureGroup(c, i);
    assert g[0] == Some(v[42]) && g[1] == Some(v[43]) && g[2] == Some(v[44]) && g[3] == Some(v[45]);
    assert g[4] == Some(v[46]) && g[5] == Some(v[47]);
    LocationInUnit(c, i, 12);
    LocationInUnit(c, i, 24);
    hide RollingLocation, FeatureMatrix.Usable;
    CandleShares(c[i]);
  }

  lemma LocationInUnit(c: seq<Candle>, i: nat, window: nat)
    requires 0 < window <= i < |c| && FeatureMatrix.Usable(c) && RollingLocation(c, i, window).Some?
    ensures 0.0 <= RollingLocation(c, i, window).value <= 1.0
  {
    var t := Tail(c, i, window - 1);
    assert FeatureMatrix.SoundRow(c, i);
    assert t[window - 1] == c[i];
    var low, high, close := LowOf(t), HighOf(t), c[i].close;
    assert low <= t[window - 1].low && t[window - 1].high <= high;
    FractionInUnit(close - low, high - low);
    hide Tail, LowOf, HighOf;
  }

  lemma VolumeColumns(f: Maths, c: seq<Candle>, i: nat, v: seq<real>)
    requires LOOKBACK <= i < |c| && |v| == WIDTH && Holds(v, 0, ReturnGroup(f, c, i))
    requires Holds(v, 34, VolatilityGroup(f, c, i)) && Holds(v, 60, VolumeGroup(f, c, i))
    ensures v[69] == Calibration.Prod(Sign(v[0]) as real, v[65])
    ensures c[i].close != 0.0
    ensures v[70] == Calibration.Prod(CurrentRange(c, i) / c[i].close, v[65])
    ensures v[40] == Atr(c, i, 24) && v[40] != 0.0 && v[41] == CurrentRange(c, i) / v[40]
  {
    hide Lagged, CurrentRange, VolumeChange, VolumeScore, MedianVolumeRatio, Volatility, Atr;
    var r, x, g := ReturnGroup(f, c, i), VolatilityGroup(f, c, i), VolumeGroup(f, c, i);
    assert r[0] == Some(v[0]) && x[6] == Some(v[40]) && x[7] == Some(v[41]);
    assert g[5] == Some(v[65]) && g[9] == Some(v[69]) && g[10] == Some(v[70]);
    BothIs(SignOption(r[0]), g[5]);
    BothIs(Divide(CurrentRange(c, i), Ago(c, i, 0).close), g[5]);
    hide Both;
  }

  lemma BothIs(a: Option<real>, b: Option<real>)
    ensures Both(a, b).Some? <==> a.Some? && b.Some?
    ensures Both(a, b).Some? ==> Both(a, b).value == Calibration.Prod(a.value, b.value)
  {
  }

  lemma QuotientsChain(range: real, close: real, atr: real, x: real)
    requires close != 0.0 && atr != 0.0
    ensures Calibration.Prod(Calibration.Prod(range / close, x), close)
            == Calibration.Prod(Calibration.Prod(range / atr, atr), x)
  {
    QuotientTimes(range, close);
    QuotientTimes(range, atr);
    Shuffle(range / close, x, close);
  }

  lemma Shuffle(a: real, x: real, d: real)
    ensures Calibration.Prod(Calibration.Prod(a, x), d) == Calibration.Prod(Calibration.Prod(a, d), x)
  {
  }

  lemma RegimeColumns(f: Maths, c: seq<Candle>, i: nat, v: seq<real>)
    requires LOOKBACK <= i < |c| && |v| == WIDTH && Holds(v, 34, VolatilityGroup(f, c, i))
    requires Holds(v, 71, RegimeGroup(f, c, i))
    ensures Calibration.Prod(v[71], v[40]) == Abs(EmaSpread(c, i, 12, 42))
    ensures Calibration.Prod(v[72], v[37]) == v[34]
  {
    hide Volatility, Atr, EmaSpread, CurrentRange, Streak, Spreads;
    var x, g := VolatilityGroup(f, c, i), RegimeGroup(f, c, i);
    assert x[0] == Some(v[34]) && x[3] == Some(v[37]) && x[6] == Some(v[40]);
    assert g[0] == Some(v[71]) && g[1] == Some(v[72]);
    QuotientTimes(Abs(EmaSpread(c, i, 12, 42)), v[40]);
    QuotientTimes(v[34], v[37]);
  }

  lemma AbsTimes(x: real, d: real)
    requires d > 0.0
    ensures Calibration.Prod(Abs(x / d), d) == Abs(x)
  {
    QuotientTimes(x, d);
    QuotientTimes(-x, d);
  }

  lemma VolumeIdentities(f: Maths, c: seq<Candle>, i: nat, v: seq<real>)
    requires LOOKBACK <= i < |c| && |v| == WIDTH && Holds(v, 0, ReturnGroup(f, c, i))
    requires Holds(v, 34, VolatilityGroup(f, c, i)) && Holds(v, 60, VolumeGroup(f, c, i))
    ensures v[69] == Calibration.Prod(Sign(v[0]) as real, v[65])
    ensures Calibration.Prod(v[70], c[i].close) == Calibration.Prod(Calibration.Prod(v[41], v[40]), v[65])
  {
    VolumeColumns(f, c, i, v);
    QuotientsChain(CurrentRange(c, i), c[i].close, v[40], v[65]);
    hide Calibration.Prod, Holds, CurrentRange, Atr, ReturnGroup, VolatilityGroup, VolumeGroup;
  }

  lemma RegimeIdentities(f: Maths, c: seq<Candle>, i: nat, v: seq<real>)
    requires LOOKBACK <= i < |c| && |v| == WIDTH && c[i].close > 0.0
    requires Holds(v, 16, TrendGroup(f, c, i)) && Holds(v, 34, VolatilityGroup(f, c, i))
    requires Holds(v, 71, RegimeGroup(f, c, i))
    ensures Calibration.Prod(v[71], v[40]) == Calibration.Prod(Abs(v[21]), c[i].close)
    ensures Calibration.Prod(v[72], v[37]) == v[34]
  {
    TrendColumns(f, c, i, v);
    RegimeColumns(f, c, i, v);
    assert Ago(c, i, 0) == c[i];
    AbsTimes(EmaSpread(c, i, 12, 42), c[i].close);
    hide Calibration.Prod, Holds, EmaSpread, TrendGroup, VolatilityGroup, RegimeGroup;
  }

  /**
   For every eligible row over usable candles, by registry column: EMA spreads are differences of EMA distances,
   drawdown and rebound mirror the distances from high and low, body and wicks share the candle and locate the close,
   the two volume proxies and the three regime values are determined by the columns they combine.
   */
  lemma RowIdentities(f: Maths, c: seq<Candle>, i: nat)
    requires LOOKBACK <= i < |c| && FeatureMatrix.Usable(c) && ComputeValues(f, c, i).Some?
    ensures var v := ComputeValues(f, c, i).value;
            && |v| == WIDTH
            && v[20] == v[18] - v[16] && v[21] == v[19] - v[17] && v[22] == v[19] - v[18]
            && v[50] == -v[12] && v[51] == v[13] && v[58] == -v[14] && v[59] == v[15]
            && 0.0 <= v[42] && 0.0 <= v[43] && 0.0 <= v[44] && v[42] + v[43] + v[44] == 1.0
            && v[45] == v[44] + (if c[i].close > c[i].open then v[42] else 0.0)
            && 0.0 <= v[46] <= 1.0 && 0.0 <= v[47] <= 1.0
            && v[69] == Calibration.Prod(Sign(v[0]) as real, v[65])
            && Calibration.Prod(v[70], c[i].close) == Calibration.Prod(Calibration.Prod(v[41], v[40]), v[65])
            && Calibration.Prod(v[71], v[40]) == Calibration.Prod(Abs(v[21]), c[i].close)
            && Calibration.Prod(v[72], v[37]) == v[34]
  {
    var v := ComputeValues(f, c, i).value;
    RowsAre(f, c, i);
    assert FeatureMatrix.SoundRow(c, i);
    hide ComputeValues, Holds, ReturnGroup, MomentumGroup, TrendGroup, VolatilityGroup, StructureGroup, Reversion,
         VolumeGroup, RegimeGroup, FeatureMatrix.Usable, CurrentRange, EmaSpread, Atr, Calibration.Prod, Sign;
    TrendColumns(f, c, i, v);
    ReversionColumns(f, c, i, v);
    StructureColumns(c, i, v);
    VolumeIdentities(f, c, i, v);
    RegimeIdentities(f, c, i, v);
  }
}
