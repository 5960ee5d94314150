/**
 The point-in-time feature matrix: seventy-four values per candle, computed inside each segment. `ln` and the
 square root are left uninterpreted; what matters here is which candles each row can depend on.
 */
module Features {
  import opened Wrappers
  import opened Domain
  import Baselines
  import Calibration
  import EntrySelectivity

  datatype Maths = Maths(ln: real -> real, root: real -> real)

  datatype Row = Row(index: nat, openTime: int, values: seq<real>)

  datatype FeatureError = Incomplete | MixedSeries | OutOfOrder | NonPositive | BadGeometry | NotCovered

  const LOOKBACK: nat := 42
  const WIDTH: nat := 74

  // ---------------------------------------------------------------- the building blocks

  /** The candle `k` before candle `i`. */
  function Ago(c: seq<Candle>, i: nat, k: nat): Candle
    requires k <= i < |c|
  {
    c[i - k]
  }

  /** The last `k + 1` candles up to and including candle `i`. */
  function Tail(c: seq<Candle>, i: nat, k: nat): (t: seq<Candle>)
    requires k <= i < |c|
    ensures |t| == k + 1
  {
    c[i - k..i + 1]
  }

  function ClosesOver(c: seq<Candle>, i: nat, k: nat): (v: seq<real>)
    requires k <= i < |c|
    ensures |v| == k + 1
  {
    Baselines.Closes(Tail(c, i, k))
  }

  function Volumes(c: seq<Candle>): (v: seq<real>)
    ensures |v| == |c|
  {
    if c == [] then [] else Volumes(c[..|c| - 1]) + [c[|c| - 1].volume]
  }

  function VolumesOver(c: seq<Candle>, i: nat, k: nat): (v: seq<real>)
    requires k <= i < |c|
    ensures |v| == k + 1
  {
    Volumes(Tail(c, i, k))
  }

  function LogRatio(f: Maths, numerator: real, denominator: real): Option<real> {
    if numerator <= 0.0 || denominator <= 0.0 then None else Some(f.ln(numerator / denominator))
  }

  function Divide(numerator: real, denominator: real): Option<real> {
    if denominator == 0.0 then None else Some(numerator / denominator)
  }

  function Minus(a: Option<real>, b: Option<real>): Option<real> {
    if a.None? || b.None? then None else Some(a.value - b.value)
  }

  function Both(a: Option<real>, b: Option<real>): Option<real> {
    if a.None? || b.None? then None else Some(a.value * b.value)
  }

  function LogReturns(f: Maths, closes: seq<real>): (r: Option<seq<real>>)
    ensures r.Some? && closes != [] ==> |r.value| == |closes| - 1
  {
    if |closes| <= 1 then Some([])
    else
      var n := |closes| - 1;
      var front := LogReturns(f, closes[..n]);
      var last := LogRatio(f, closes[n], closes[n - 1]);
      if front.None? || last.None? then None else Some(front.value + [last.value])
  }

  /** The true range of every candle but the first, which only supplies a previous close. */
  function TrueRanges(c: seq<Candle>): (r: seq<real>)
    requires c != []
    ensures |r| == |c| - 1
  {
    seq(|c| - 1, k requires 0 <= k < |c| - 1 => Baselines.TrueRange(c, k + 1))
  }

  function Mean(values: seq<real>): real
    requires values != []
  {
    Calibration.Sum(values) / |values| as real
  }

  function Deviation(f: Maths, values: seq<real>): real
    requires values != []
  {
    f.root(Calibration.Cross(values, values, Mean(values), Mean(values)) / |values| as real)
  }

  function Median(values: seq<real>): real
    requires values != []
  {
    EntrySelectivity.SortedSorts(values);
    var ordered := EntrySelectivity.Sorted(values);
    var midpoint := |ordered| / 2;
    if |ordered| % 2 == 1 then ordered[midpoint] else (ordered[midpoint - 1] + ordered[midpoint]) / 2.0
  }

  function Sign(x: real): int {
    if x > 0.0 then 1 else if x < 0.0 then -1 else 0
  }

  function CountSign(values: seq<real>, sign: int): nat {
    if values == [] then 0
    else CountSign(values[..|values| - 1], sign) + if Sign(values[|values| - 1]) == sign then 1 else 0
  }

  /** How many trailing elements share the sign of the last one, if it has one. */
  function SignRun(values: seq<real>, sign: int): nat {
    if values == [] || Sign(values[|values| - 1]) != sign then 0 else 1 + SignRun(values[..|values| - 1], sign)
  }

  function Streak(values: seq<real>): nat {
    if values == [] || Sign(values[|values| - 1]) == 0 then 0 else SignRun(values, Sign(values[|values| - 1]))
  }

  function HighOf(c: seq<Candle>): real
    requires c != []
  {
    Baselines.HighestHigh(c, 0, |c|)
  }

  function LowOf(c: seq<Candle>): real
    requires c != []
  {
    Baselines.LowestLow(c, 0, |c|)
  }

  /** The average over the last forty-three closes, read `back` candles before the current one. */
  function EmaBack(c: seq<Candle>, i: nat, span: nat, back: nat): real
    requires LOOKBACK <= i < |c| && back <= LOOKBACK
  {
    Baselines.Ema(ClosesOver(c, i, LOOKBACK), span, LOOKBACK - back)
  }

  function EmaSpread(c: seq<Candle>, i: nat, fast: nat, slow: nat): real
    requires LOOKBACK <= i < |c|
  {
    EmaBack(c, i, fast, 0) - EmaBack(c, i, slow, 0)
  }

  /** Fast less slow average at each of the first `n` of the forty-three candles. */
  function Spreads(c: seq<Candle>, i: nat, fast: nat, slow: nat, n: nat): seq<real>
    requires LOOKBACK <= i < |c| && n <= LOOKBACK + 1
  {
    if n == 0 then []
    else
      Spreads(c, i, fast, slow, n - 1)
      + [EmaBack(c, i, fast, LOOKBACK + 1 - n) - EmaBack(c, i, slow, LOOKBACK + 1 - n)]
  }

  function Lagged(f: Maths, c: seq<Candle>, i: nat, lag: nat): Option<real>
    requires lag <= i < |c|
  {
    LogRatio(f, Ago(c, i, 0).close, Ago(c, i, lag).close)
  }

  function ReturnsOver(f: Maths, c: seq<Candle>, i: nat, window: nat): (r: Option<seq<real>>)
    requires window <= i < |c|
    ensures r.Some? ==> |r.value| == window
  {
    LogReturns(f, ClosesOver(c, i, window))
  }

  function RangesOver(c: seq<Candle>, i: nat, window: nat): (r: seq<real>)
    requires window <= i < |c|
    ensures |r| == window
  {
    TrueRanges(Tail(c, i, window))
  }

  function Atr(c: seq<Candle>, i: nat, window: nat): real
    requires 0 < window <= i < |c|
  {
    Mean(RangesOver(c, i, window))
  }

  // ---------------------------------------------------------------- the feature groups, in registry order

  function ReturnGroup(f: Maths, c: seq<Candle>, i: nat): seq<Option<real>>
    requires LOOKBACK <= i < |c|
  {
    [Lagged(f, c, i, 1), Lagged(f, c, i, 2), Lagged(f, c, i, 3), Lagged(f, c, i, 6), Lagged(f, c, i, 12),
     Lagged(f, c, i, 24), Lagged(f, c, i, 42)]
  }

  function PositiveFraction(f: Maths, c: seq<Candle>, i: nat, window: nat): Option<real>
    requires 0 < window <= i < |c|
  {
    var r := ReturnsOver(f, c, i, window);
    if r.None? then None else Some(CountSign(r.value, 1) as real / window as real)
  }

  function FromHigh(c: seq<Candle>, i: nat, window: nat): Option<real>
    requires 0 < window <= i < |c|
  {
    var high := Calibration.Largest(ClosesOver(c, i, window - 1));
    Divide(Ago(c, i, 0).close - high, high)
  }

  function FromLow(c: seq<Candle>, i: nat, window: nat): Option<real>
    requires 0 < window <= i < |c|
  {
    var low := Calibration.Smallest(ClosesOver(c, i, window - 1));
    Divide(Ago(c, i, 0).close - low, low)
  }

  function MomentumGroup(f: Maths, c: seq<Candle>, i: nat): seq<Option<real>>
    requires LOOKBACK <= i < |c|
  {
    [PositiveFraction(f, c, i, 6), PositiveFraction(f, c, i, 12),
     PositiveFraction(f, c, i, 24), PositiveFraction(f, c, i, 42),
     Minus(Lagged(f, c, i, 3), LogRatio(f, Ago(c, i, 3).close, Ago(c, i, 6).close)),
     FromHigh(c, i, 12), FromLow(c, i, 12), FromHigh(c, i, 42), FromLow(c, i, 42)]
  }

  function EmaDistance(c: seq<Candle>, i: nat, span: nat): Option<real>
    requires LOOKBACK <= i < |c|
  {
    Divide(Ago(c, i, 0).close - EmaBack(c, i, span, 0), Ago(c, i, 0).close)
  }

  function EmaSlope(c: seq<Candle>, i: nat, span: nat, back: nat): Option<real>
    requires LOOKBACK <= i < |c| && back <= LOOKBACK
  {
    Divide(EmaBack(c, i, span, 0) - EmaBack(c, i, span, back), Ago(c, i, 0).close)
  }

  function Consistency(f: Maths, c: seq<Candle>, i: nat, window: nat): Option<real>
    requires 0 < window <= i < |c|
  {
    var r := ReturnsOver(f, c, i, window);
    if r.None? then None
    else
      var direction := Sign(Calibration.Sum(r.value));
      if direction == 0 then Some(0.0) else Some(CountSign(r.value, direction) as real / window as real)
  }

  function TrendGroup(f: Maths, c: seq<Candle>, i: nat): seq<Option<real>>
    requires LOOKBACK <= i < |c|
  {
    var close := Ago(c, i, 0).close;
    [EmaDistance(c, i, 6), EmaDistance(c, i, 12), EmaDistance(c, i, 24), EmaDistance(c, i, 42),
     Divide(EmaSpread(c, i, 6, 24), close), Divide(EmaSpread(c, i, 12, 42), close),
     Divide(EmaSpread(c, i, 24, 42), close),
     EmaSlope(c, i, 6, 3), EmaSlope(c, i, 6, 6), EmaSlope(c, i, 12, 3), EmaSlope(c, i, 12, 6),
     EmaSlope(c, i, 24, 3), EmaSlope(c, i, 24, 6), EmaSlope(c, i, 42, 3), EmaSlope(c, i, 42, 6),
     Consistency(f, c, i, 6), Consistency(f, c, i, 12), Consistency(f, c, i, 24)]
  }

  function Volatility(f: Maths, c: seq<Candle>, i: nat, window: nat): Option<real>
    requires 0 < window <= i < |c|
  {
    var r := ReturnsOver(f, c, i, window);
    if r.None? then None else Some(Deviation(f, r.value))
  }

  function CurrentRange(c: seq<Candle>, i: nat): real
    requires 24 <= i < |c|
  {
    RangesOver(c, i, 24)[23]
  }

  function VolatilityGroup(f: Maths, c: seq<Candle>, i: nat): seq<Option<real>>
    requires LOOKBACK <= i < |c|
  {
    [Volatility(f, c, i, 6), Volatility(f, c, i, 12), Volatility(f, c, i, 24), Volatility(f, c, i, 42),
     Some(Atr(c, i, 6)), Some(Atr(c, i, 12)), Some(Atr(c, i, 24)), Divide(CurrentRange(c, i), Atr(c, i, 24))]
  }

  function RollingLocation(c: seq<Candle>, i: nat, window: nat): Option<real>
    requires 0 < window <= i < |c|
  {
    var t := Tail(c, i, window - 1);
    Divide(Ago(c, i, 0).close - LowOf(t), HighOf(t) - LowOf(t))
  }

  function StructureGroup(c: seq<Candle>, i: nat): seq<Option<real>>
    requires LOOKBACK <= i < |c|
  {
    var now := Ago(c, i, 0);
    var range := now.high - now.low;
    [Divide(Abs(now.close - now.open), range), Divide(now.high - Max(now.open, now.close), range),
     Divide(Min(now.open, now.close) - now.low, range), Divide(now.close - now.low, range),
     RollingLocation(c, i, 12), RollingLocation(c, i, 24)]
  }

  function Reversion(f: Maths, c: seq<Candle>, i: nat, window: nat): seq<Option<real>>
    requires 0 < window <= i < |c| && LOOKBACK <= i
  {
    var closes, close := ClosesOver(c, i, window - 1), Ago(c, i, 0).close;
    var high, low := Calibration.Largest(closes), Calibration.Smallest(closes);
    [Divide(close - Mean(closes), Deviation(f, closes)), Divide(close - Median(closes), Atr(c, i, 24)),
     Divide(high - close, high), Divide(close - low, low)]
  }

  function VolumeChange(f: Maths, c: seq<Candle>, i: nat, lag: nat): Option<real>
    requires lag <= i < |c|
  {
    LogRatio(f, Ago(c, i, 0).volume, Ago(c, i, lag).volume)
  }

  function MedianVolumeRatio(c: seq<Candle>, i: nat, window: nat): Option<real>
    requires 0 < window <= i < |c|
  {
    Divide(Ago(c, i, 0).volume, Median(VolumesOver(c, i, window - 1)))
  }

  function VolumeScore(f: Maths, c: seq<Candle>, i: nat, window: nat): Option<real>
    requires 0 < window <= i < |c|
  {
    var volumes := VolumesOver(c, i, window - 1);
    Divide(Ago(c, i, 0).volume - Mean(volumes), Deviation(f, volumes))
  }

  function SignOption(a: Option<real>): Option<real> {
    if a.None? then None else Some(Sign(a.value) as real)
  }

  function VolumeGroup(f: Maths, c: seq<Candle>, i: nat): seq<Option<real>>
    requires LOOKBACK <= i < |c|
  {
    var normalized := MedianVolumeRatio(c, i, 24);
    [VolumeChange(f, c, i, 1), VolumeChange(f, c, i, 3), VolumeChange(f, c, i, 6), VolumeChange(f, c, i, 12),
     MedianVolumeRatio(c, i, 12), normalized, MedianVolumeRatio(c, i, 42),
     VolumeScore(f, c, i, 24), VolumeScore(f, c, i, 42),
     Both(SignOption(Lagged(f, c, i, 1)), normalized),
     Both(Divide(CurrentRange(c, i), Ago(c, i, 0).close), normalized)]
  }

  function RegimeGroup(f: Maths, c: seq<Candle>, i: nat): seq<Option<real>>
    requires LOOKBACK <= i < |c|
  {
    var short, long := Volatility(f, c, i, 6), Volatility(f, c, i, 42);
    [Divide(Abs(EmaSpread(c, i, 12, 42)), Atr(c, i, 24)),
     if short.None? || long.None? then None else Divide(short.value, long.value),
     Some(Streak(Spreads(c, i, 12, 42, LOOKBACK + 1)) as real)]
  }

  /** All the values, or none when one of them is not defined: an ineligible row. */
  function Collect(options: seq<Option<real>>): (r: Option<seq<real>>)
    ensures r.Some? ==> |r.value| == |options|
  {
    if options == [] then Some([])
    else
      var front, last := Collect(options[..|options| - 1]), options[|options| - 1];
      if front.None? || last.None? then None else Some(front.value + [last.value])
  }

  function Groups(f: Maths, c: seq<Candle>, i: nat): (g: seq<Option<real>>)
    requires LOOKBACK <= i < |c|
    ensures |g| == WIDTH
  {
    ReturnGroup(f, c, i) + MomentumGroup(f, c, i) + TrendGroup(f, c, i) + VolatilityGroup(f, c, i)
    + StructureGroup(c, i)
    + Reversion(f, c, i, 12) + Reversion(f, c, i, 24) + Reversion(f, c, i, 42)
    + VolumeGroup(f, c, i) + RegimeGroup(f, c, i)
  }

  function ComputeValues(f: Maths, c: seq<Candle>, i: nat): (v: Option<seq<real>>)
    requires LOOKBACK <= i < |c|
    ensures v.Some? ==> |v.value| == WIDTH
  {
    Collect(Groups(f, c, i))
  }

  // ---------------------------------------------------------------- locality

  /** Two positions with the same last forty-three candles. */
  ghost predicate SameView(c: seq<Candle>, i: nat, c': seq<Candle>, i': nat)
    requires LOOKBACK <= i < |c| && LOOKBACK <= i' < |c'|
  {
    && (forall k: nat :: k <= LOOKBACK ==> Tail(c, i, k) == Tail(c', i', k))
    && (forall k: nat :: k <= LOOKBACK ==> Ago(c, i, k) == Ago(c', i', k))
  }

  lemma WindowIsView(c: seq<Candle>, i: nat, c': seq<Candle>, i': nat)
    requires LOOKBACK <= i < |c| && LOOKBACK <= i' < |c'|
    requires c[i - LOOKBACK..i + 1] == c'[i' - LOOKBACK..i' + 1]
    ensures SameView(c, i, c', i')
  {
    var w, w' := c[i - LOOKBACK..i + 1], c'[i' - LOOKBACK..i' + 1];
    forall k: nat | k <= LOOKBACK ensures Tail(c, i, k) == Tail(c', i', k) && Ago(c, i, k) == Ago(c', i', k) {
      assert Tail(c, i, k) == w[LOOKBACK - k..] && Tail(c', i', k) == w'[LOOKBACK - k..];
      assert Ago(c, i, k) == w[LOOKBACK - k] && Ago(c', i', k) == w'[LOOKBACK - k];
    }
  }

  lemma EmaBackIsLocal(c: seq<Candle>, i: nat, c': seq<Candle>, i': nat, span: nat, back: nat)
    requires LOOKBACK <= i < |c| && LOOKBACK <= i' < |c'| && SameView(c, i, c', i') && back <= LOOKBACK
    ensures EmaBack(c, i, span, back) == EmaBack(c', i', span, back)
  {
  }

  lemma {:induction false} SpreadsAreLocal(
    c: seq<Candle>, i: nat, c': seq<Candle>, i': nat, fast: nat, slow: nat, n: nat)
    requires LOOKBACK <= i < |c| && LOOKBACK <= i' < |c'| && SameView(c, i, c', i') && n <= LOOKBACK + 1
    ensures Spreads(c, i, fast, slow, n) == Spreads(c', i', fast, slow, n)
  {
    hide SameView, EmaBack;
    if n > 0 {
      SpreadsAreLocal(c, i, c', i', fast, slow, n - 1);
      EmaBackIsLocal(c, i, c', i', fast, LOOKBACK + 1 - n);
      EmaBackIsLocal(c, i, c', i', slow, LOOKBACK + 1 - n);
    }
  }

  /** Every group reads its position only through the last forty-three candles. */
  lemma ReturnsAndMomentumAreLocal(f: Maths, c: seq<Candle>, i: nat, c': seq<Candle>, i': nat)
    requires LOOKBACK <= i < |c| && LOOKBACK <= i' < |c'| && SameView(c, i, c', i')
    ensures ReturnGroup(f, c, i) == ReturnGroup(f, c', i')
    ensures MomentumGroup(f, c, i) == MomentumGroup(f, c', i')
  {
    hide LogRatio, Divide, Calibration.Largest, Calibration.Smallest, LogReturns, CountSign, Baselines.Closes, Tail,
         Ago;
  }

  lemma TrendIsLocal(f: Maths, c: seq<Candle>, i: nat, c': seq<Candle>, i': nat)
    requires LOOKBACK <= i < |c| && LOOKBACK <= i' < |c'| && SameView(c, i, c', i')
    ensures TrendGroup(f, c, i) == TrendGroup(f, c', i')
  {
    hide Divide, LogReturns, CountSign, Baselines.Closes, Baselines.Ema, Calibration.Sum, Tail, Ago;
  }

  lemma RangesAreLocal(f: Maths, c: seq<Candle>, i: nat, c': seq<Candle>, i': nat)
    requires LOOKBACK <= i < |c| && LOOKBACK <= i' < |c'| && SameView(c, i, c', i')
    ensures VolatilityGroup(f, c, i) == VolatilityGroup(f, c', i')
    ensures StructureGroup(c, i) == StructureGroup(c', i')
  {
    hide Divide, LogReturns, Baselines.Closes, Mean, Deviation, TrueRanges, HighOf, LowOf, Tail, Ago;
  }

  lemma ReversionIsLocal(f: Maths, c: seq<Candle>, i: nat, c': seq<Candle>, i': nat, window: nat)
    requires LOOKBACK <= i < |c| && LOOKBACK <= i' < |c'| && SameView(c, i, c', i') && 0 < window <= LOOKBACK
    ensures Reversion(f, c, i, window) == Reversion(f, c', i', window)
  {
    hide Divide, Baselines.Closes, Mean, Deviation, Median, TrueRanges, Calibration.Largest, Calibration.Smallest,
         Tail, Ago;
  }

  lemma VolumeAndRegimeAreLocal(f: Maths, c: seq<Candle>, i: nat, c': seq<Candle>, i': nat)
    requires LOOKBACK <= i < |c| && LOOKBACK <= i' < |c'| && SameView(c, i, c', i')
    ensures VolumeGroup(f, c, i) == VolumeGroup(f, c', i')
    ensures RegimeGroup(f, c, i) == RegimeGroup(f, c', i')
  {
    hide LogRatio, Divide, Volumes, Mean, Deviation, Median, TrueRanges, LogReturns, Baselines.Closes, Baselines.Ema,
         Streak, Both, Sign,
      Spreads, Tail, Ago;
    SpreadsAreLocal(c, i, c', i', 12, 42, LOOKBACK + 1);
  }

  /** A row depends on nothing but its forty-three candles: equal windows give equal rows, wherever they stand. */
  lemma RowsAreLocal(f: Maths, c: seq<Candle>, i: nat, c': seq<Candle>, i': nat)
    requires LOOKBACK <= i < |c| && LOOKBACK <= i' < |c'|
    requires c[i - LOOKBACK..i + 1] == c'[i' - LOOKBACK..i' + 1]
    ensures ComputeValues(f, c, i) == ComputeValues(f, c', i')
  {
    hide ReturnGroup, MomentumGroup, TrendGroup, VolatilityGroup, StructureGroup, Reversion, VolumeGroup, RegimeGroup,
         Collect, SameView;
    WindowIsView(c, i, c', i');
    ReturnsAndMomentumAreLocal(f, c, i, c', i');
    TrendIsLocal(f, c, i, c', i');
    RangesAreLocal(f, c, i, c', i');
    ReversionIsLocal(f, c, i, c', i', 12);
    ReversionIsLocal(f, c, i, c', i', 24);
    ReversionIsLocal(f, c, i, c', i', 42);
    VolumeAndRegimeAreLocal(f, c, i, c', i');
  }
}
