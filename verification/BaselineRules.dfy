/** When the baselines trade: the moving average's recurrence and the z-score rule, told from the candles alone. */
module BaselineRules {
  import opened Wrappers
  import opened Domain
  import opened Baselines
  import Simulator
  import opened Calibration

  // ---------------------------------------------------------------- the moving average

  /** Each average moves from the last one toward the new value by two parts in `span + 1`. */
  lemma EmaMovesTowardValue(values: seq<real>, span: nat, i: nat)
    requires i < |values|
    ensures i == 0 ==> Ema(values, span, i) == values[0]
    ensures i > 0 ==>
              (span + 1) as real * (Ema(values, span, i) - Ema(values, span, i - 1))
              == 2.0 * (values[i] - Ema(values, span, i - 1))
  {
    if i > 0 {
      var n, a, last, value := (span + 1) as real, Alpha(span), Ema(values, span, i - 1), values[i];
      assert n * a == 2.0;
      MoveBy(n, a, last, value);
    }
  }

  lemma MoveBy(n: real, a: real, last: real, value: real)
    requires n * a == 2.0
    ensures n * (a * value + (1.0 - a) * last - last) == 2.0 * (value - last)
  {
    assert a * value + (1.0 - a) * last - last == a * (value - last);
    assert n * (a * (value - last)) == (n * a) * (value - last);
  }

  /** The fast average is above the slow one on a candle that has fifty closes behind it. */
  predicate FastAbove(candles: seq<Candle>, t: int)
    requires t < |candles|
  {
    t >= 49 && Ema(Closes(candles), 20, t) > Ema(Closes(candles), 50, t)
  }

  /** The crossover schedule trades exactly where the order of the averages changes. */
  lemma EmaTradesIff(candles: seq<Candle>, t: nat)
    requires t < |candles|
    ensures |EmaPath(candles, t + 1).actions| == t + 1
    ensures var action := EmaPath(candles, t + 1).actions[t];
            && (action.Enter? <==> FastAbove(candles, t) && !FastAbove(candles, t - 1))
            && (action.Exit? <==> !FastAbove(candles, t) && FastAbove(candles, t - 1))
            && (action.Hold? <==> FastAbove(candles, t) && FastAbove(candles, t - 1))
  {
    EmaIsWord(candles, t);
    EmaIsWord(candles, t + 1);
    hide Ema, IsWord;
  }

  // ---------------------------------------------------------------- true ranges

  /** The true range is the span of the candle stretched to include the previous close. */
  lemma TrueRangeIsSpan(candles: seq<Candle>, i: nat)
    requires i < |candles| && candles[i].low <= candles[i].high
    ensures i == 0 ==> TrueRange(candles, i) == candles[i].high - candles[i].low
    ensures i > 0 ==>
              var before := candles[i - 1].close;
              TrueRange(candles, i) == Max(candles[i].high, before) - Min(candles[i].low, before)
  {
  }

  // ---------------------------------------------------------------- the z-score

  function Mean24(candles: seq<Candle>, i: nat): real
    requires 23 <= i < |candles|
  {
    CloseSum(candles, i - 23, i + 1) / 24.0
  }

  function Variance24(candles: seq<Candle>, i: nat): real
    requires 23 <= i < |candles|
  {
    SquareSum(candles, i - 23, i + 1, Mean24(candles, i)) / 24.0
  }

  lemma ZeroSquare(x: real)
    requires x == 0.0
    ensures Prod(x, x) == 0.0
  {
  }

  lemma AddSquare(rest: real, d: real, sum: real)
    requires rest >= 0.0 && sum == rest + Prod(d, d)
    ensures sum >= 0.0
    ensures sum == 0.0 ==> rest == 0.0 && d == 0.0
    ensures rest == 0.0 && d == 0.0 ==> sum == 0.0
  {
    SquareIsNonNegative(d);
    if d == 0.0 { ZeroSquare(d); }
    hide Prod;
  }

  lemma {:induction false} SquareSumVanishesIff(candles: seq<Candle>, from: nat, to: nat, mean: real)
    requires from <= to <= |candles|
    ensures SquareSum(candles, from, to, mean) >= 0.0
    ensures SquareSum(candles, from, to, mean) == 0.0 <==> forall k :: from <= k < to ==> candles[k].close == mean
  {
    if to > from {
      SquareSumVanishesIff(candles, from, to - 1, mean);
      var d, rest := candles[to - 1].close - mean, SquareSum(candles, from, to - 1, mean);
      assert SquareSum(candles, from, to, mean) == rest + Prod(d, d);
      hide Prod, SquareSum;
      AddSquare(rest, d, SquareSum(candles, from, to, mean));
      assert d == 0.0 <==> candles[to - 1].close == mean;
    }
  }

  lemma SquareGrows(x: real, y: real)
    requires 0.0 <= x <= y
    ensures x * x <= x * y <= y * y
  {
    Simulator.MulMonotone(x, y, x);
    Simulator.MulMonotone(x, y, y);
  }

  lemma SquareGrowsStrictly(x: real, y: real)
    requires 0.0 <= x < y
    ensures x * x < y * y
  {
    PositiveProduct(y - x, y + x);
    DifferenceOfSquares(x, y);
  }

  lemma PositiveProduct(x: real, y: real)
    requires x > 0.0 && y > 0.0
    ensures x * y > 0.0
  {
  }

  lemma DifferenceOfSquares(x: real, y: real)
    ensures (y - x) * (y + x) == y * y - x * x
  {
  }

  lemma SquaresCompare(x: real, y: real)
    requires x >= 0.0 && y >= 0.0
    ensures x * x >= y * y <==> x >= y
  {
    if x >= y { SquareGrows(y, x); } else { SquareGrowsStrictly(x, y); }
  }

  /**
   The score is undefined exactly for twenty-four equal closes; otherwise, for whatever root the variance has, its
   comparisons with zero and with minus one and a half are those of `(close - mean) / root`.
   */
  lemma StretchIsZscore(candles: seq<Candle>, i: nat, root: real)
    requires 23 <= i < |candles| && root >= 0.0 && root * root == Variance24(candles, i)
    ensures var s := StretchAt(candles, i);
            && (!s.defined <==> forall k :: i - 23 <= k <= i ==> candles[k].close == Mean24(candles, i))
            && (s.defined ==>
                  && root > 0.0
                  && (s.negative <==> (candles[i].close - Mean24(candles, i)) / root < 0.0)
                  && (s.deep <==> (candles[i].close - Mean24(candles, i)) / root <= -1.5))
            && (!s.defined ==> !s.negative && !s.deep)
  {
    var mean, variance := Mean24(candles, i), Variance24(candles, i);
    SquareSumVanishesIff(candles, i - 23, i + 1, mean);
    hide SquareSum, CloseSum;
    var below := mean - candles[i].close;
    if root == 0.0 { ZeroSquare(root); }
    if variance != 0.0 {
      ScoreCompares(below, root);
      assert below * below >= 2.25 * variance <==> below * below >= 2.25 * (root * root);
    }
  }

  lemma ScoreCompares(below: real, root: real)
    requires root > 0.0
    ensures (-below) / root < 0.0 <==> below > 0.0
    ensures (-below) / root <= -1.5 <==> below >= 0.0 && below * below >= 2.25 * (root * root)
  {
    var z := (-below) / root;
    assert z * root == -below;
    SignOfQuotient(z, root);
    assert 1.5 * root * (1.5 * root) == 2.25 * (root * root);
    if below >= 0.0 {
      SquaresCompare(below, 1.5 * root);
    }
    if z <= -1.5 { Simulator.MulMonotone(z, -1.5, root); }
    if z > -1.5 { Simulator.MulStrict(-1.5, z, root); }
  }

  lemma SignOfQuotient(z: real, root: real)
    requires root > 0.0
    ensures z * root < 0.0 <==> z < 0.0
  {
    if z < 0.0 { Simulator.MulStrict(z, 0.0, root); } else { Simulator.MulNonNegative(z, root); }
  }

  // ---------------------------------------------------------------- when the z-score schedule trades

  /** The stop of a position opened on candle `e`, after candle `t`. */
  function StopAfter(candles: seq<Candle>, e: nat, t: nat): real
    requires 23 <= e <= t < |candles|
    decreases t
  {
    if t == e then candles[e].close - INITIAL_STOP_ATR * Atr24(candles, e).value
    else Max(StopAfter(candles, e, t - 1),
             HighestClose(candles, e, t + 1) - TRAILING_STOP_ATR * Atr24(candles, t).value)
  }

  /** The schedule has been long since it entered on candle `e`. */
  ghost predicate LongSince(actions: seq<Action>, e: nat, t: nat)
    requires e < t <= |actions|
  {
    actions[e].Enter? && forall k :: e < k < t ==> actions[k].Hold?
  }

  lemma {:induction false} RunsAreCounted(candles: seq<Candle>, n: nat)
    requires n <= |candles|
    ensures ZRun(candles, n).Ok? && |ZRun(candles, n).value.path.actions| == n
    ensures n > 0 ==> ZRun(candles, n - 1).Ok?
                      && ZRun(candles, n).value.path.actions[..n - 1] == ZRun(candles, n - 1).value.path.actions
  {
    hide StretchAt, RangeSum, HighestClose;
    ZscoreNeverRaises(candles, n);
    if n > 0 { ZscoreNeverRaises(candles, n - 1); }
  }

  /** While long, the machine's stop is the one of the episode. */
  lemma {:induction false} StopIsEpisodes(candles: seq<Candle>, e: nat, t: nat)
    requires 23 <= e < t <= |candles| && ZRun(candles, t).Ok? && |ZRun(candles, t).value.path.actions| == t
    requires LongSince(ZRun(candles, t).value.path.actions, e, t)
    ensures ZRun(candles, t).value.path.long
    ensures ZRun(candles, t).value.stop == Some(StopAfter(candles, e, t - 1))
    ensures ZRun(candles, t).value.highest == Some(HighestClose(candles, e, t))
    decreases t
  {
    hide StretchAt, RangeSum;
    RunsAreCounted(candles, t);
    var before, after := ZRun(candles, t - 1).value, ZRun(candles, t).value;
    RunsAreCounted(candles, t - 1);
    if t - 1 > e {
      assert forall k :: e <= k < t - 1 ==> before.path.actions[k] == after.path.actions[k];
      StopIsEpisodes(candles, e, t - 1);
    }
    assert after.path.actions[t - 1] == StateAction(before.path.long, after.path.long);
  }

  /** The score of candle `t`, when there is one: its close less the mean of twenty-four, in units of `root`. */
  function Score(candles: seq<Candle>, t: nat, root: real): Option<real>
    requires 23 <= t < |candles|
  {
    if root == 0.0 then None else Some((candles[t].close - Mean24(candles, t)) / root)
  }

  function EntryStop(candles: seq<Candle>, t: nat): real
    requires 23 <= t < |candles|
  {
    candles[t].close - INITIAL_STOP_ATR * Atr24(candles, t).value
  }

  function ZActions(candles: seq<Candle>, n: nat): (actions: seq<Action>)
    requires n <= |candles|
    ensures |actions| == n
  {
    RunsAreCounted(candles, n);
    ZRun(candles, n).value.path.actions
  }

  /** What one step answers, told from the position it starts in. */
  lemma StepTradesIff(candles: seq<Candle>, z: ZPath, t: nat)
    requires 23 <= t < |candles| && ZShape(candles, t, z)
    ensures ZStep(candles, z, t).Ok? && |ZStep(candles, z, t).value.path.actions| == t + 1
    ensures var action, s := ZStep(candles, z, t).value.path.actions[t], StretchAt(candles, t);
            && (action.Enter? <==> !z.path.long && s.defined && s.deep && EntryStop(candles, t) > 0.0)
            && (z.path.long ==>
                  (action.Exit? <==> candles[t].low <= z.stop.value || (s.defined && !s.negative)))
  {
    hide StretchAt, RangeSum, IsWord, Episode;
  }

  /**
   The z-score schedule enters on candle `t` exactly when it holds no position, the score is at most minus one and a
   half and the stop an entry would start with is positive; it closes a position opened on candle `e` exactly when
   the low reaches the episode's stop or the score is zero or more.
   */
  lemma ZscoreTradesIff(candles: seq<Candle>, t: nat, root: real)
    requires 23 <= t < |candles| && root >= 0.0 && root * root == Variance24(candles, t)
    ensures var actions, score := ZActions(candles, t + 1), Score(candles, t, root);
            && (actions[t].Enter? <==>
                  !LongAfter(actions, t) && score.Some? && score.value <= -1.5 && EntryStop(candles, t) > 0.0)
            && (LongAfter(actions, t) ==> exists e :: 23 <= e < t && LongSince(actions, e, t))
            && forall e :: 23 <= e < t && LongSince(actions, e, t) ==>
                 (actions[t].Exit? <==>
                    candles[t].low <= StopAfter(candles, e, t - 1) || (score.Some? && score.value >= 0.0))
  {
    hide StretchAt, RangeSum, CloseSum, SquareSum;
    ZscoreNeverRaises(candles, t);
    RunsAreCounted(candles, t + 1);
    var z := ZRun(candles, t).value;
    var actions := ZActions(candles, t + 1);
    StepTradesIff(candles, z, t);
    ScoreOf(candles, t, root);
    assert actions[..t] == z.path.actions;
    SameStart(z.path.actions, actions);
    if z.path.long {
      var e :| 23 <= e < t && Episode(candles, t, z, e);
      assert LongSince(actions, e, t);
    }
    forall e | 23 <= e < t && LongSince(actions, e, t)
      ensures z.path.long && z.stop == Some(StopAfter(candles, e, t - 1))
    {
      assert forall k :: e <= k < t ==> z.path.actions[k] == actions[k];
      StopIsEpisodes(candles, e, t);
    }
  }

  lemma SameStart(short: seq<Action>, long: seq<Action>)
    requires |short| <= |long| && long[..|short|] == short
    ensures LongAfter(long, |short|) <==> LongAfter(short, |short|)
  {
    assert |short| > 0 ==> long[..|short|][|short| - 1] == long[|short| - 1];
  }

  lemma ScoreOf(candles: seq<Candle>, t: nat, root: real)
    requires 23 <= t < |candles| && root >= 0.0 && root * root == Variance24(candles, t)
    ensures var s, score := StretchAt(candles, t), Score(candles, t, root);
            && (s.defined <==> score.Some?)
            && (s.defined ==> (s.negative <==> score.value < 0.0) && (s.deep <==> score.value <= -1.5))
  {
    StretchIsZscore(candles, t, root);
    RootVanishesIff(root, Variance24(candles, t));
    hide SquareSum, CloseSum, Mean24;
  }

  lemma RootVanishesIff(root: real, variance: real)
    requires root >= 0.0 && root * root == variance
    ensures root == 0.0 <==> variance == 0.0
  {
    assert variance == Prod(root, root);
    if root == 0.0 { ZeroSquare(root); } else { PositiveProd(root, root); }
    hide Prod;
  }

  lemma PositiveProd(x: real, y: real)
    requires x > 0.0 && y > 0.0
    ensures Prod(x, y) > 0.0
  {
  }

  /** Before the twenty-fourth candle nothing happens. */
  lemma {:induction false} ZscoreWaits(candles: seq<Candle>, t: nat)
    requires t < |candles| && t < 23
    ensures ZActions(candles, t + 1)[t].Cash?
    ensures ZRun(candles, t + 1).Ok? && !ZRun(candles, t + 1).value.path.long
  {
    hide StretchAt, RangeSum;
    RunsAreCounted(candles, t + 1);
    RunsAreCounted(candles, t);
    if t > 0 { ZscoreWaits(candles, t - 1); }
  }

  /** The stop of an open position is the highest of the one it started with and every trail since. */
  lemma {:induction false} StopIsHighest(candles: seq<Candle>, e: nat, t: nat)
    requires 23 <= e <= t < |candles|
    ensures StopAfter(candles, e, t) >= EntryStop(candles, e)
    ensures forall k :: e < k <= t ==> StopAfter(candles, e, t) >= Trail(candles, e, k)
    ensures StopAfter(candles, e, t) == EntryStop(candles, e)
            || exists k :: e < k <= t && StopAfter(candles, e, t) == Trail(candles, e, k)
    decreases t
  {
    hide RangeSum;
    if t > e {
      StopIsHighest(candles, e, t - 1);
      assert StopAfter(candles, e, t) == Max(StopAfter(candles, e, t - 1), Trail(candles, e, t));
    }
  }

  function Trail(candles: seq<Candle>, e: nat, k: nat): real
    requires 23 <= e < k < |candles|
  {
    HighestClose(candles, e, k + 1) - TRAILING_STOP_ATR * Atr24(candles, k).value
  }
}
