/**
 The baseline schedules: trailing-only long-or-cash rules whose schedule of a candle prefix is the prefix
 of the schedule.
 */
module Baselines {
  import opened Wrappers
  import opened Domain
  import Simulator

  datatype Action = Cash | Enter | Hold | Exit

  datatype BaselineError =
    | EntryNeedsAtr | HoldNeedsState
    | Incomplete | MixedSeries | OutOfOrder

  /** The loop variables every schedule shares: the position and the actions so far. */
  datatype Path = Path(long: bool, actions: seq<Action>)

  const START := Path(false, [])

  /** The action half of `_state_action`; the position afterwards is always the one asked for. */
  function StateAction(long: bool, should: bool): Action {
    if should && !long then Enter else if !should && long then Exit else if long then Hold else Cash
  }

  function Play(p: Path, should: bool): Path {
    Path(should, p.actions + [StateAction(p.long, should)])
  }

  // ---------------------------------------------------------------- words of actions

  predicate LongAfter(actions: seq<Action>, t: int)
    requires 0 <= t <= |actions|
  {
    t > 0 && (actions[t - 1].Enter? || actions[t - 1].Hold?)
  }

  predicate Letter(actions: seq<Action>, t: int)
    requires 0 <= t < |actions|
  {
    LongAfter(actions, t) <==> actions[t].Hold? || actions[t].Exit?
  }

  /** A prefix of `(CASH* ENTER HOLD* EXIT)*`, with the position it ends in. */
  ghost predicate IsWord(p: Path) {
    && (forall t :: 0 <= t < |p.actions| ==> Letter(p.actions, t))
    && (p.long <==> LongAfter(p.actions, |p.actions|))
  }

  lemma AppendKeepsWord(p: Path, action: Action)
    requires IsWord(p) && (p.long <==> action.Hold? || action.Exit?)
    ensures IsWord(Path(action.Enter? || action.Hold?, p.actions + [action]))
  {
    var longer := p.actions + [action];
    forall t | 0 <= t < |longer| ensures Letter(longer, t) {
      if t < |p.actions| { assert Letter(p.actions, t); }
    }
  }

  // ---------------------------------------------------------------- exponential moving averages

  function Alpha(span: nat): (a: real)
    ensures span >= 1 ==> 0.0 < a <= 1.0
  {
    2.0 / (span + 1) as real
  }

  function Ema(values: seq<real>, span: nat, i: nat): real
    requires i < |values|
  {
    if i == 0 then values[0] else Alpha(span) * values[i] + (1.0 - Alpha(span)) * Ema(values, span, i - 1)
  }

  method EmaSeries(values: seq<real>, span: nat) returns (output: seq<real>)
    ensures |output| == |values| && forall i :: 0 <= i < |values| ==> output[i] == Ema(values, span, i)
  {
    if values == [] { return []; }
    var alpha := Alpha(span);
    var current := values[0];
    output := [current];
    for n := 1 to |values|
      invariant |output| == n && current == Ema(values, span, n - 1)
      invariant forall i :: 0 <= i < n ==> output[i] == Ema(values, span, i)
    {
      current := alpha * values[n] + (1.0 - alpha) * current;
      output := output + [current];
    }
  }

  lemma Blend(a: real, x: real, y: real, low: real, high: real)
    requires 0.0 < a <= 1.0 && low <= x <= high && low <= y <= high
    ensures low <= a * x + (1.0 - a) * y <= high
  {
    assert a * x + (1.0 - a) * y == low + a * (x - low) + (1.0 - a) * (y - low);
    Simulator.MulNonNegative(a, x - low);
    Simulator.MulNonNegative(1.0 - a, y - low);
    assert a * x + (1.0 - a) * y == high - a * (high - x) - (1.0 - a) * (high - y);
    Simulator.MulNonNegative(a, high - x);
    Simulator.MulNonNegative(1.0 - a, high - y);
  }

  /** An average never leaves the range of the values it has seen. */
  lemma {:induction false} EmaStaysInRange(values: seq<real>, span: nat, i: nat, low: real, high: real)
    requires i < |values| && span >= 1
    requires forall k :: 0 <= k <= i ==> low <= values[k] <= high
    ensures low <= Ema(values, span, i) <= high
  {
    if i > 0 {
      EmaStaysInRange(values, span, i - 1, low, high);
      Blend(Alpha(span), values[i], Ema(values, span, i - 1), low, high);
    }
  }

  lemma {:induction false} EmaReadsPrefix(values: seq<real>, span: nat, k: nat, i: nat)
    requires i < k <= |values|
    ensures Ema(values[..k], span, i) == Ema(values, span, i)
  {
    if i > 0 { EmaReadsPrefix(values, span, k, i - 1); }
  }

  function Closes(candles: seq<Candle>): (values: seq<real>)
    ensures |values| == |candles| && forall i :: 0 <= i < |candles| ==> values[i] == candles[i].close
  {
    if candles == [] then [] else Closes(candles[..|candles| - 1]) + [candles[|candles| - 1].close]
  }

  predicate Crossover(candles: seq<Candle>, i: nat)
    requires i < |candles|
  {
    i >= 49 && Ema(Closes(candles), 20, i) > Ema(Closes(candles), 50, i)
  }

  function EmaPath(candles: seq<Candle>, n: nat): Path
    requires n <= |candles|
  {
    if n == 0 then START else Play(EmaPath(candles, n - 1), Crossover(candles, n - 1))
  }

  method EmaSchedule(candles: seq<Candle>) returns (actions: seq<Action>)
    ensures actions == EmaPath(candles, |candles|).actions
  {
    var closes := Closes(candles);
    var fast := EmaSeries(closes, 20);
    var slow := EmaSeries(closes, 50);
    var long := false;
    actions := [];
    for index := 0 to |candles|
      invariant Path(long, actions) == EmaPath(candles, index)
    {
      var should := index >= 49 && fast[index] > slow[index];
      actions := actions + [StateAction(long, should)];
      long := should;
    }
  }

  lemma {:induction false} EmaIsWord(candles: seq<Candle>, n: nat)
    requires n <= |candles|
    ensures |EmaPath(candles, n).actions| == n && IsWord(EmaPath(candles, n))
    ensures EmaPath(candles, n).long <==> n > 0 && Crossover(candles, n - 1)
  {
    if n > 0 {
      EmaIsWord(candles, n - 1);
      AppendKeepsWord(EmaPath(candles, n - 1), StateAction(EmaPath(candles, n - 1).long, Crossover(candles, n - 1)));
    }
  }

  lemma {:induction false} EmaReadsThePast(candles: seq<Candle>, k: nat, n: nat)
    requires n <= k <= |candles|
    ensures EmaPath(candles[..k], n) == EmaPath(candles, n)
  {
    if n > 0 {
      EmaReadsThePast(candles, k, n - 1);
      assert Closes(candles[..k]) == Closes(candles)[..k];
      EmaReadsPrefix(Closes(candles), 20, k, n - 1);
      EmaReadsPrefix(Closes(candles), 50, k, n - 1);
    }
  }

  // ---------------------------------------------------------------- Donchian channels

  function LowestLow(candles: seq<Candle>, from: nat, to: nat): (low: real)
    requires from < to <= |candles|
    ensures forall i :: from <= i < to ==> low <= candles[i].low
    ensures exists i :: from <= i < to && low == candles[i].low
  {
    if to == from + 1 then candles[from].low else Min(LowestLow(candles, from, to - 1), candles[to - 1].low)
  }

  function HighestHigh(candles: seq<Candle>, from: nat, to: nat): (high: real)
    requires from < to <= |candles|
    ensures forall i :: from <= i < to ==> high >= candles[i].high
    ensures exists i :: from <= i < to && high == candles[i].high
  {
    if to == from + 1 then candles[from].high else Max(HighestHigh(candles, from, to - 1), candles[to - 1].high)
  }

  predicate Breakout(candles: seq<Candle>, long: bool, i: nat)
    requires i < |candles|
  {
    if i < 20 then long
    else if long then !(candles[i].close < LowestLow(candles, i - 10, i))
    else candles[i].close > HighestHigh(candles, i - 20, i)
  }

  function DonchianPath(candles: seq<Candle>, n: nat): Path
    requires n <= |candles|
  {
    if n == 0 then START
    else
      var p := DonchianPath(candles, n - 1);
      Play(p, Breakout(candles, p.long, n - 1))
  }

  method DonchianSchedule(candles: seq<Candle>) returns (actions: seq<Action>)
    ensures actions == DonchianPath(candles, |candles|).actions
  {
    var long := false;
    actions := [];
    for index := 0 to |candles|
      invariant Path(long, actions) == DonchianPath(candles, index)
    {
      var should := long;
      if index < 20 {
      } else if long {
        var priorLow := LowestLow(candles, index - 10, index);
        should := !(candles[index].close < priorLow);
      } else {
        var priorHigh := HighestHigh(candles, index - 20, index);
        should := candles[index].close > priorHigh;
      }
      actions := actions + [StateAction(long, should)];
      long := should;
    }
  }

  lemma {:induction false} DonchianIsWord(candles: seq<Candle>, n: nat)
    requires n <= |candles|
    ensures |DonchianPath(candles, n).actions| == n && IsWord(DonchianPath(candles, n))
    ensures n <= 20 ==> !DonchianPath(candles, n).long
  {
    if n > 0 {
      DonchianIsWord(candles, n - 1);
      var p := DonchianPath(candles, n - 1);
      AppendKeepsWord(p, StateAction(p.long, Breakout(candles, p.long, n - 1)));
    }
  }

  /** Entries close above every one of the last twenty highs; exits close below every one of the last ten lows. */
  lemma DonchianBreaksChannels(candles: seq<Candle>, t: nat)
    requires t < |candles|
    ensures var p := DonchianPath(candles, t);
            var actions := DonchianPath(candles, t + 1).actions;
            && |actions| == t + 1
            && (actions[t].Enter? <==>
                  !p.long && t >= 20 && forall i :: t - 20 <= i < t ==> candles[t].close > candles[i].high)
            && (actions[t].Exit? <==>
                  p.long && t >= 20 && forall i :: t - 10 <= i < t ==> candles[t].close < candles[i].low)
  {
    DonchianIsWord(candles, t);
    var p := DonchianPath(candles, t);
    assert DonchianPath(candles, t + 1) == Play(p, Breakout(candles, p.long, t));
    BreakoutMeans(candles, p.long, t);
  }

  lemma BreakoutMeans(candles: seq<Candle>, long: bool, t: nat)
    requires t < |candles|
    ensures t < 20 ==> Breakout(candles, long, t) == long
    ensures t >= 20 && !long ==>
            (Breakout(candles, long, t) <==> forall i :: t - 20 <= i < t ==> candles[t].close > candles[i].high)
    ensures t >= 20 && long ==>
            (!Breakout(candles, long, t) <==> forall i :: t - 10 <= i < t ==> candles[t].close < candles[i].low)
  {
    if t >= 20 {
      if long {
        var i :| t - 10 <= i < t && LowestLow(candles, t - 10, t) == candles[i].low;
        assert candles[t].close < candles[i].low ==> candles[t].close < LowestLow(candles, t - 10, t);
      } else {
        var i :| t - 20 <= i < t && HighestHigh(candles, t - 20, t) == candles[i].high;
        assert candles[i].high < candles[t].close ==> HighestHigh(candles, t - 20, t) < candles[t].close;
      }
    }
  }

  lemma {:induction false} LowsReadThePast(candles: seq<Candle>, k: nat, from: nat, to: nat)
    requires from < to <= k <= |candles|
    ensures LowestLow(candles[..k], from, to) == LowestLow(candles, from, to)
  {
    if to > from + 1 { LowsReadThePast(candles, k, from, to - 1); }
  }

  lemma {:induction false} HighsReadThePast(candles: seq<Candle>, k: nat, from: nat, to: nat)
    requires from < to <= k <= |candles|
    ensures HighestHigh(candles[..k], from, to) == HighestHigh(candles, from, to)
  {
    if to > from + 1 { HighsReadThePast(candles, k, from, to - 1); }
  }

  lemma BreakoutReadsThePast(candles: seq<Candle>, k: nat, long: bool, i: nat)
    requires i < k <= |candles|
    ensures Breakout(candles[..k], long, i) == Breakout(candles, long, i)
  {
    if i >= 20 {
      LowsReadThePast(candles, k, i - 10, i);
      HighsReadThePast(candles, k, i - 20, i);
      assert candles[..k][i] == candles[i];
      hide LowestLow, HighestHigh;
    }
  }

  lemma {:induction false} DonchianReadsThePast(candles: seq<Candle>, k: nat, n: nat)
    requires n <= k <= |candles|
    ensures DonchianPath(candles[..k], n) == DonchianPath(candles, n)
  {
    if n > 0 {
      DonchianReadsThePast(candles, k, n - 1);
      BreakoutReadsThePast(candles, k, DonchianPath(candles, n - 1).long, n - 1);
      hide Breakout;
    }
  }

  // ---------------------------------------------------------------- the z-score machine

  function TrueRange(candles: seq<Candle>, i: nat): real
    requires i < |candles|
  {
    var c := candles[i];
    if i == 0 then c.high - c.low
    else Max(Max(c.high - c.low, Abs(c.high - candles[i - 1].close)), Abs(c.low - candles[i - 1].close))
  }

  function RangeSum(candles: seq<Candle>, from: nat, to: nat): real
    requires from <= to <= |candles|
  {
    if to == from then 0.0 else RangeSum(candles, from, to - 1) + TrueRange(candles, to - 1)
  }

  function Atr24(candles: seq<Candle>, i: nat): Option<real>
    requires i < |candles|
  {
    if i < 23 then None else Some(RangeSum(candles, i - 23, i + 1) / 24.0)
  }

  function CloseSum(candles: seq<Candle>, from: nat, to: nat): real
    requires from <= to <= |candles|
  {
    if to == from then 0.0 else CloseSum(candles, from, to - 1) + candles[to - 1].close
  }

  function SquareSum(candles: seq<Candle>, from: nat, to: nat, mean: real): real
    requires from <= to <= |candles|
  {
    if to == from then 0.0
    else SquareSum(candles, from, to - 1, mean) + (candles[to - 1].close - mean) * (candles[to - 1].close - mean)
  }

  /** What the schedule asks of the z-score: undefined, below zero, and at most minus one and a half. */
  datatype Stretch = Stretch(defined: bool, negative: bool, deep: bool)

  /**
  `(close - mean) / sqrt(variance)` compared with 0 and with -1.5. The root is positive whenever the score is
  defined, so both comparisons are stated without it, the second by squaring.
  */
  function StretchAt(candles: seq<Candle>, i: nat): Stretch
    requires 23 <= i < |candles|
  {
    var mean := CloseSum(candles, i - 23, i + 1) / 24.0;
    var variance := SquareSum(candles, i - 23, i + 1, mean) / 24.0;
    var below := mean - candles[i].close;
    if variance == 0.0 then Stretch(false, false, false)
    else Stretch(true, below > 0.0, below >= 0.0 && below * below >= 2.25 * variance)
  }

  datatype ZPath = ZPath(path: Path, highest: Option<real>, stop: Option<real>)

  const INITIAL_STOP_ATR := 2.5
  const TRAILING_STOP_ATR := 3.0

  predicate ShouldBeLong(candles: seq<Candle>, z: ZPath, i: nat)
    requires i < |candles|
  {
    if i < 23 then z.path.long
    else
      var s := StretchAt(candles, i);
      if z.path.long then !(z.stop.Some? && candles[i].low <= z.stop.value) && (!s.defined || s.negative)
      else s.defined && s.deep
  }

  function ZStep(candles: seq<Candle>, z: ZPath, i: nat): Result<ZPath, BaselineError>
    requires i < |candles|
  {
    var atr := Atr24(candles, i);
    var close := candles[i].close;
    var action := StateAction(z.path.long, ShouldBeLong(candles, z, i));
    match action
    case Enter =>
      if atr.None? then Err(EntryNeedsAtr)
      else
        var stop := close - INITIAL_STOP_ATR * atr.value;
        if stop <= 0.0 then Ok(ZPath(Path(false, z.path.actions + [Cash]), None, None))
        else Ok(ZPath(Path(true, z.path.actions + [Enter]), Some(close), Some(stop)))
    case Hold =>
      if atr.None? || z.highest.None? || z.stop.None? then Err(HoldNeedsState)
      else
        var highest := Max(z.highest.value, close);
        var stop := Max(z.stop.value, highest - TRAILING_STOP_ATR * atr.value);
        Ok(ZPath(Path(true, z.path.actions + [Hold]), Some(highest), Some(stop)))
    case Exit => Ok(ZPath(Path(false, z.path.actions + [Exit]), None, None))
    case Cash => Ok(ZPath(Path(false, z.path.actions + [Cash]), z.highest, z.stop))
  }

  function ZRun(candles: seq<Candle>, n: nat): Result<ZPath, BaselineError>
    requires n <= |candles|
  {
    if n == 0 then Ok(ZPath(START, None, None))
    else
      match ZRun(candles, n - 1)
      case Err(error) => Err(error)
      case Ok(z) => ZStep(candles, z, n - 1)
  }

  function HighestClose(candles: seq<Candle>, from: nat, to: nat): real
    requires from < to <= |candles|
  {
    if to == from + 1 then candles[from].close else Max(HighestClose(candles, from, to - 1), candles[to - 1].close)
  }

  /** The position has been open since candle `entry`. */
  ghost predicate OpenSince(actions: seq<Action>, entry: nat) {
    && entry < |actions| && actions[entry].Enter?
    && forall t :: entry < t < |actions| ==> actions[t].Hold?
  }

  /**
   Long exactly when the stop and the highest close are set; then the stop is positive and the high is the
   episode's.
   */
  ghost predicate ZShape(candles: seq<Candle>, n: nat, z: ZPath)
    requires n <= |candles|
  {
    && |z.path.actions| == n && IsWord(z.path)
    && (z.path.long <==> z.highest.Some?)
    && (z.path.long <==> z.stop.Some?)
    && (z.path.long ==> z.stop.value > 0.0)
    && (z.path.long ==> exists e :: 23 <= e < n && Episode(candles, n, z, e))
  }

  ghost predicate Episode(candles: seq<Candle>, n: nat, z: ZPath, e: nat)
    requires e < n <= |candles|
  {
    OpenSince(z.path.actions, e) && z.highest == Some(HighestClose(candles, e, n))
  }

  lemma ZStepKeeps(candles: seq<Candle>, n: nat, z: ZPath)
    requires n < |candles| && ZShape(candles, n, z)
    ensures ZStep(candles, z, n).Ok? && ZShape(candles, n + 1, ZStep(candles, z, n).value)
  {
    hide StretchAt, RangeSum, IsWord;
    var next := ZStep(candles, z, n);
    if next.Ok? {
      var after := next.value;
      var action := after.path.actions[n];
      AppendKeepsWord(z.path, action);
      if action.Enter? {
        assert Episode(candles, n + 1, after, n);
      } else if action.Hold? {
        var e :| 23 <= e < n && Episode(candles, n, z, e);
        assert Episode(candles, n + 1, after, e);
      }
    }
  }

  /** For every candle sequence: neither raise can fire, and the machine keeps its shape at every candle. */
  lemma {:induction false} ZscoreNeverRaises(candles: seq<Candle>, n: nat)
    requires n <= |candles|
    ensures ZRun(candles, n).Ok? && ZShape(candles, n, ZRun(candles, n).value)
  {
    if n > 0 {
      hide ZShape, ZStep;
      ZscoreNeverRaises(candles, n - 1);
      ZStepKeeps(candles, n - 1, ZRun(candles, n - 1).value);
    } else {
      assert ZShape(candles, 0, ZPath(START, None, None));
    }
  }

  /** While a position stays open its stop never falls, and never goes below three ranges under the high. */
  lemma {:induction false} ZscoreStopNeverFalls(candles: seq<Candle>, i: nat, j: nat)
    requires i <= j <= |candles|
    requires ZRun(candles, i).Ok? && ZRun(candles, i).value.path.long && ZRun(candles, j).Ok?
             && j == |ZRun(candles, j).value.path.actions|
    requires forall t :: i <= t < j ==> ZRun(candles, j).value.path.actions[t].Hold?
    ensures ZRun(candles, i).value.stop.Some? && ZRun(candles, j).value.stop.Some?
    ensures ZRun(candles, i).value.stop.value <= ZRun(candles, j).value.stop.value
    ensures i < j ==> Atr24(candles, j - 1).Some? && ZRun(candles, j).value.highest.Some?
                      && ZRun(candles, j).value.stop.value
                         >= ZRun(candles, j).value.highest.value - TRAILING_STOP_ATR * Atr24(candles, j - 1).value
  {
    hide StretchAt, RangeSum, IsWord;
    ZscoreNeverRaises(candles, i);
    if i < j {
      ZscoreNeverRaises(candles, j - 1);
      var before, after := ZRun(candles, j - 1).value, ZRun(candles, j).value;
      assert after.path.actions[j - 1].Hold?;
      assert forall t :: i <= t < j - 1 ==> before.path.actions[t] == after.path.actions[t];
      ZscoreStopNeverFalls(candles, i, j - 1);
    }
  }

  lemma {:induction false} SumsReadThePast(candles: seq<Candle>, k: nat, from: nat, to: nat, mean: real)
    requires from <= to <= k <= |candles|
    ensures RangeSum(candles[..k], from, to) == RangeSum(candles, from, to)
    ensures CloseSum(candles[..k], from, to) == CloseSum(candles, from, to)
    ensures SquareSum(candles[..k], from, to, mean) == SquareSum(candles, from, to, mean)
  {
    if to > from { SumsReadThePast(candles, k, from, to - 1, mean); }
  }

  lemma StretchReadsThePast(candles: seq<Candle>, k: nat, i: nat)
    requires 23 <= i < k <= |candles|
    ensures StretchAt(candles[..k], i) == StretchAt(candles, i)
    ensures Atr24(candles[..k], i) == Atr24(candles, i)
  {
    var mean := CloseSum(candles, i - 23, i + 1) / 24.0;
    SumsReadThePast(candles, k, i - 23, i + 1, mean);
    assert candles[..k][i] == candles[i];
    hide CloseSum, SquareSum, RangeSum;
  }

  lemma ZStepReadsThePast(candles: seq<Candle>, k: nat, z: ZPath, i: nat)
    requires i < k <= |candles|
    ensures ZStep(candles[..k], z, i) == ZStep(candles, z, i)
  {
    if i >= 23 { StretchReadsThePast(candles, k, i); }
    assert candles[..k][i] == candles[i];
    hide StretchAt, RangeSum;
  }

  lemma {:induction false} ZscoreReadsThePast(candles: seq<Candle>, k: nat, n: nat)
    requires n <= k <= |candles|
    ensures ZRun(candles[..k], n) == ZRun(candles, n)
  {
    if n > 0 {
      ZscoreReadsThePast(candles, k, n - 1);
      hide ZStep;
      if ZRun(candles, n - 1).Ok? { ZStepReadsThePast(candles, k, ZRun(candles, n - 1).value, n - 1); }
    }
  }

  method ZscoreSchedule(candles: seq<Candle>) returns (r: Result<seq<Action>, BaselineError>)
    ensures ZRun(candles, |candles|).Ok? && r == Ok(ZRun(candles, |candles|).value.path.actions)
  {
    hide StretchAt, RangeSum, ZShape;
    var actions := [];
    var long := false;
    var highest: Option<real> := None;
    var stop: Option<real> := None;
    for index := 0 to |candles|
      invariant ZRun(candles, index) == Ok(ZPath(Path(long, actions), highest, stop))
    {
      ZscoreNeverRaises(candles, index + 1);
      var atr := Atr24(candles, index);
      var close := candles[index].close;
      var should := long;
      if index >= 23 {
        var s := StretchAt(candles, index);
        if long {
          var stopHit := stop.Some? && candles[index].low <= stop.value;
          should := !stopHit && (!s.defined || s.negative);
        } else {
          should := s.defined && s.deep;
        }
      }
      var action, next := StateAction(long, should), should;
      if action.Enter? {
        highest := Some(close);
        stop := Some(close - INITIAL_STOP_ATR * atr.value);
        if stop.value <= 0.0 {
          action, next, highest, stop := Cash, false, None, None;
        }
      } else if action.Hold? {
        highest := Some(Max(highest.value, close));
        stop := Some(Max(stop.value, highest.value - TRAILING_STOP_ATR * atr.value));
      } else if action.Exit? {
        highest, stop := None, None;
      }
      long := next;
      actions := actions + [action];
    }
    ZscoreNeverRaises(candles, |candles|);
    return Ok(actions);
  }

  // ---------------------------------------------------------------- all five schedules

  datatype Schedules = Schedules(
    cash: seq<Action>, buyHold: seq<Action>, ema: seq<Action>, donchian: seq<Action>, zscore: seq<Action>)

  predicate SameSeries(candles: seq<Candle>, i: int)
    requires 0 < i < |candles|
  {
    candles[i].instrument == candles[i - 1].instrument && candles[i].timeframe == candles[i - 1].timeframe
  }

  predicate Chronological(candles: seq<Candle>, i: int)
    requires 0 < i < |candles|
  {
    candles[i].openTime > candles[i - 1].openTime
  }

  /** What `_validate_candles` accepts. */
  ghost predicate Usable(candles: seq<Candle>) {
    && (forall i :: 0 <= i < |candles| ==> candles[i].completed)
    && (forall i :: 0 < i < |candles| ==> SameSeries(candles, i))
    && (forall i :: 0 < i < |candles| ==> Chronological(candles, i))
  }

  method ValidateCandles(candles: seq<Candle>) returns (error: Option<BaselineError>)
    ensures error.None? <==> Usable(candles)
  {
    for index := 0 to |candles|
      invariant forall i :: 0 <= i < index ==> candles[i].completed
      invariant forall i :: 0 < i < index ==> SameSeries(candles, i)
      invariant forall i :: 0 < i < index ==> Chronological(candles, i)
    {
      if !candles[index].completed { return Some(Incomplete); }
      if index > 0 {
        if !SameSeries(candles, index) { return Some(MixedSeries); }
        if !Chronological(candles, index) { return Some(OutOfOrder); }
      }
    }
    return None;
  }

  function BuyHold(count: nat): seq<Action> {
    if count == 0 then [] else if count == 1 then [Enter] else BuyHold(count - 1) + [Hold]
  }

  function CashOnly(count: nat): seq<Action> {
    if count == 0 then [] else CashOnly(count - 1) + [Cash]
  }

  function ScheduleOf(candles: seq<Candle>): (s: Schedules)
  {
    ZscoreNeverRaises(candles, |candles|);
    Schedules(CashOnly(|candles|), BuyHold(|candles|), EmaPath(candles, |candles|).actions,
              DonchianPath(candles, |candles|).actions, ZRun(candles, |candles|).value.path.actions)
  }

  method BuildBaselineSchedules(candles: seq<Candle>) returns (r: Result<Schedules, BaselineError>)
    ensures r.Ok? <==> Usable(candles)
    ensures r.Ok? ==> r.value == ScheduleOf(candles)
  {
    var error := ValidateCandles(candles);
    if error.Some? { return Err(error.value); }
    var ema := EmaSchedule(candles);
    var donchian := DonchianSchedule(candles);
    var zscore := ZscoreSchedule(candles);
    return Ok(Schedules(CashOnly(|candles|), BuyHold(|candles|), ema, donchian, zscore.value));
  }

  function Shortened(s: Schedules, k: nat): Schedules
    requires k <= |s.cash| && k <= |s.buyHold| && k <= |s.ema| && k <= |s.donchian| && k <= |s.zscore|
  {
    Schedules(s.cash[..k], s.buyHold[..k], s.ema[..k], s.donchian[..k], s.zscore[..k])
  }

  ghost predicate Word(actions: seq<Action>) {
    IsWord(Path(LongAfter(actions, |actions|), actions))
  }

  lemma {:induction false} ConstantSchedules(n: nat)
    ensures |CashOnly(n)| == n == |BuyHold(n)|
    ensures IsWord(Path(false, CashOnly(n))) && IsWord(Path(n > 0, BuyHold(n)))
  {
    if n > 0 {
      ConstantSchedules(n - 1);
      AppendKeepsWord(Path(false, CashOnly(n - 1)), Cash);
      AppendKeepsWord(Path(n > 1, BuyHold(n - 1)), if n == 1 then Enter else Hold);
      assert n == 1 ==> [] + [Enter] == BuyHold(n);
    }
  }

  lemma {:induction false} EmaExtends(candles: seq<Candle>, k: nat, n: nat)
    requires k <= n <= |candles|
    ensures EmaPath(candles, k).actions <= EmaPath(candles, n).actions
  {
    if k < n { EmaExtends(candles, k, n - 1); }
  }

  lemma {:induction false} DonchianExtends(candles: seq<Candle>, k: nat, n: nat)
    requires k <= n <= |candles|
    ensures DonchianPath(candles, k).actions <= DonchianPath(candles, n).actions
  {
    if k < n {
      hide Breakout;
      DonchianExtends(candles, k, n - 1);
    }
  }

  lemma {:induction false} ZscoreExtends(candles: seq<Candle>, k: nat, n: nat)
    requires k <= n <= |candles|
    ensures ZRun(candles, n).Ok? && ZRun(candles, k).Ok?
    ensures ZRun(candles, k).value.path.actions <= ZRun(candles, n).value.path.actions
  {
    hide ZShape, ShouldBeLong, Atr24;
    ZscoreNeverRaises(candles, n);
    if k < n { ZscoreExtends(candles, k, n - 1); }
  }

  lemma {:induction false} ConstantsExtend(k: nat, n: nat)
    requires k <= n
    ensures CashOnly(k) <= CashOnly(n) && BuyHold(k) <= BuyHold(n)
  {
    if k < n { ConstantsExtend(k, n - 1); }
  }

  /** Every schedule has one action per candle and is a word of round trips. */
  lemma SchedulesAreWords(candles: seq<Candle>)
    ensures var s := ScheduleOf(candles);
            && |s.cash| == |s.buyHold| == |s.ema| == |s.donchian| == |s.zscore| == |candles|
            && Word(s.cash) && Word(s.buyHold) && Word(s.ema) && Word(s.donchian) && Word(s.zscore)
  {
    ConstantSchedules(|candles|);
    EmaIsWord(candles, |candles|);
    DonchianIsWord(candles, |candles|);
    ZscoreNeverRaises(candles, |candles|);
  }

  /** No schedule looks ahead: the schedules of a prefix are the prefixes of the schedules. */
  lemma SchedulesReadThePast(candles: seq<Candle>, k: nat)
    requires k <= |candles|
    ensures |ScheduleOf(candles).cash| == |ScheduleOf(candles).buyHold| == |ScheduleOf(candles).ema|
            == |ScheduleOf(candles).donchian| == |ScheduleOf(candles).zscore| == |candles|
    ensures ScheduleOf(candles[..k]) == Shortened(ScheduleOf(candles), k)
  {
    hide Word, ZRun, EmaPath, DonchianPath, CashOnly, BuyHold;
    SchedulesAreWords(candles);
    SchedulesAreWords(candles[..k]);
    ConstantsExtend(k, |candles|);
    EmaExtends(candles, k, |candles|);
    DonchianExtends(candles, k, |candles|);
    ZscoreExtends(candles, k, |candles|);
    EmaReadsThePast(candles, k, k);
    DonchianReadsThePast(candles, k, k);
    ZscoreReadsThePast(candles, k, k);
  }
}
