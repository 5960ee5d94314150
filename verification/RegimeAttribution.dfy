/** Account changes and completed trades attributed to the regime observed at each candle. */
module RegimeAttribution {
  import opened Wrappers
  import opened Domain
  import opened Trades
  import Arbitration
  import Engine
  import EngineTheorems

  type Regime = Arbitration.Regime

  datatype Observation = Observation(index: int, state: Regime)

  datatype AttributionError = Misaligned | DuplicateIndices | UnderivableTrades(error: TradeError) | UnobservedExit

  datatype RegimeMetrics = RegimeMetrics(
    state: Regime,
    periods: nat,
    netReturn: real,
    maximumDrawdown: real,
    exposure: real,
    trades: nat)

  predicate UniqueIndices(observations: seq<Observation>) {
    forall i, j | 0 <= i < j < |observations| :: observations[i].index != observations[j].index
  }

  function StateAt(observations: seq<Observation>, index: int): Option<Regime> {
    if observations == [] then None
    else
      var last := observations[|observations| - 1];
      if last.index == index then Some(last.state) else StateAt(observations[..|observations| - 1], index)
  }

  // ---------------------------------------------------------------- what each state is credited with

  function Periods(observations: seq<Observation>, s: Regime): nat {
    if observations == [] then 0
    else Periods(observations[..|observations| - 1], s) + if observations[|observations| - 1].state == s then 1 else 0
  }

  function Before(initial: real, series: seq<Account>): real {
    if series == [] then initial else series[|series| - 1].equity
  }

  function Share(change: real, initial: real): real
    requires initial != 0.0
  {
    change / initial
  }

  function NetReturn(initial: real, series: seq<Account>, observations: seq<Observation>, s: Regime): real
    requires |series| == |observations| && initial != 0.0
  {
    if series == [] then 0.0
    else
      var n := |series| - 1;
      NetReturn(initial, series[..n], observations[..n], s)
      + if observations[n].state == s then Share(series[n].equity - Before(initial, series[..n]), initial) else 0.0
  }

  function WorstDrawdown(series: seq<Account>, observations: seq<Observation>, s: Regime): real
    requires |series| == |observations|
  {
    if series == [] then 0.0
    else
      var n := |series| - 1;
      var worst := WorstDrawdown(series[..n], observations[..n], s);
      if observations[n].state == s then Max(worst, series[n].drawdown) else worst
  }

  function Exposed(series: seq<Account>, observations: seq<Observation>, s: Regime): nat
    requires |series| == |observations|
  {
    if series == [] then 0
    else
      var n := |series| - 1;
      var counted := observations[n].state == s && series[n].position > 0.0;
      Exposed(series[..n], observations[..n], s) + if counted then 1 else 0
  }

  function Exits(trades: seq<CompletedTrade>, observations: seq<Observation>, s: Regime): nat {
    if trades == [] then 0
    else
      var n := |trades| - 1;
      Exits(trades[..n], observations, s) + if StateAt(observations, trades[n].exitIndex) == Some(s) then 1 else 0
  }

  predicate AllExitsObserved(trades: seq<CompletedTrade>, observations: seq<Observation>) {
    forall k | 0 <= k < |trades| :: StateAt(observations, trades[k].exitIndex).Some?
  }

  function MetricsFor(
    initial: real, series: seq<Account>, observations: seq<Observation>, trades: seq<CompletedTrade>,
    s: Regime): RegimeMetrics
    requires |series| == |observations| && initial != 0.0
  {
    RegimeMetrics(s, Periods(observations, s), NetReturn(initial, series, observations, s),
                  WorstDrawdown(series, observations, s),
                  if Periods(observations, s) == 0 then 0.0
                  else Exposed(series, observations, s) as real / Periods(observations, s) as real,
                  Exits(trades, observations, s))
  }

  const STATES: seq<Regime> :=
    [Arbitration.Unstable, Arbitration.Trending, Arbitration.Ranging, Arbitration.Indeterminate]

  ghost predicate Tallied(
    initial: real, series: seq<Account>, observations: seq<Observation>, n: nat, periods: map<Regime, nat>,
    returned: map<Regime, real>, worst: map<Regime, real>, exposed: map<Regime, nat>)
    requires |series| == |observations| && n <= |series| && initial != 0.0
  {
    forall s: Regime :: TalliedFor(initial, series[..n], observations[..n], periods, returned, worst, exposed, s)
  }

  ghost predicate TalliedFor(
    initial: real, series: seq<Account>, observations: seq<Observation>, periods: map<Regime, nat>,
    returned: map<Regime, real>, worst: map<Regime, real>, exposed: map<Regime, nat>, s: Regime)
    requires |series| == |observations| && initial != 0.0
  {
    && s in periods && periods[s] == Periods(observations, s)
    && s in returned && returned[s] == NetReturn(initial, series, observations, s)
    && s in worst && worst[s] == WorstDrawdown(series, observations, s)
    && s in exposed && exposed[s] == Exposed(series, observations, s)
  }

  function Zeros(): map<Regime, nat> {
    map[Arbitration.Unstable := 0, Arbitration.Trending := 0, Arbitration.Ranging := 0, Arbitration.Indeterminate := 0]
  }

  function NoReturns(): map<Regime, real> {
    map[Arbitration.Unstable := 0.0, Arbitration.Trending := 0.0, Arbitration.Ranging := 0.0,
        Arbitration.Indeterminate := 0.0]
  }

  lemma ZerosAreZero()
    ensures forall s: Regime :: s in Zeros() && Zeros()[s] == 0
    ensures forall s: Regime :: s in NoReturns() && NoReturns()[s] == 0.0
  {
    forall s: Regime ensures s in Zeros() && Zeros()[s] == 0 && s in NoReturns() && NoReturns()[s] == 0.0 {
      match s
      case Unstable =>
      case Trending =>
      case Ranging =>
      case Indeterminate =>
    }
  }

  /** One pass over the account series fills the four per-state tables. */
  method Tally(initial: real, series: seq<Account>, observations: seq<Observation>)
    returns (periods: map<Regime, nat>, returned: map<Regime, real>, worst: map<Regime, real>,
        exposed: map<Regime, nat>)
    requires initial > 0.0 && |series| == |observations|
    ensures Tallied(initial, series, observations, |series|, periods, returned, worst, exposed)
  {
    hide Share;
    periods, returned, worst, exposed := Zeros(), NoReturns(), NoReturns(), Zeros();
    ZerosAreZero();
    var previous := initial;
    for n := 0 to |series|
      invariant Tallied(initial, series, observations, n, periods, returned, worst, exposed)
      invariant previous == Before(initial, series[..n])
    {
      var state, snapshot := observations[n].state, series[n];
      assert TalliedFor(initial, series[..n], observations[..n], periods, returned, worst, exposed, state);
      ghost var p, r, w, e := periods, returned, worst, exposed;
      periods := periods[state := periods[state] + 1];
      returned := returned[state := returned[state] + Share(snapshot.equity - previous, initial)];
      worst := worst[state := Max(worst[state], snapshot.drawdown)];
      exposed := exposed[state := exposed[state] + if snapshot.position > 0.0 then 1 else 0];
      previous := snapshot.equity;
      ghost var head, seen := series[..n + 1], observations[..n + 1];
      assert head[..n] == series[..n] && seen[..n] == observations[..n];
      forall s: Regime ensures TalliedFor(initial, head, seen, periods, returned, worst, exposed, s) {
        assert TalliedFor(initial, series[..n], observations[..n], p, r, w, e, s);
      }
    }
  }

  method CountExits(trades: seq<CompletedTrade>, observations: seq<Observation>)
    returns (counts: map<Regime, nat>, complete: bool)
    ensures complete <==> AllExitsObserved(trades, observations)
    ensures complete ==> forall s: Regime :: s in counts && counts[s] == Exits(trades, observations, s)
  {
    counts := Zeros();
    ZerosAreZero();
    for n := 0 to |trades|
      invariant AllExitsObserved(trades[..n], observations)
      invariant forall s: Regime :: s in counts && counts[s] == Exits(trades[..n], observations, s)
    {
      var state := StateAt(observations, trades[n].exitIndex);
      if state.None? { return counts, false; }
      assert trades[..n + 1][..n] == trades[..n];
      assert state.value in counts;
      counts := counts[state.value := counts[state.value] + 1];
    }
    assert trades[..|trades|] == trades;
    return counts, true;
  }

  method AttributeRegimeMetrics(
    initial: real, series: seq<Account>, observations: seq<Observation>, orders: map<OrderId, Order>,
    fills: seq<Fill>)
    returns (r: Result<seq<RegimeMetrics>, AttributionError>)
    requires initial > 0.0
    ensures r.Ok? <==> |observations| == |series| && UniqueIndices(observations) && Derive(orders, fills).Ok?
                       && AllExitsObserved(Derive(orders, fills).value.trades, observations)
    ensures r.Ok? ==>
              && |r.value| == 4
              && forall k :: 0 <= k < 4 ==>
                   r.value[k]
                   == MetricsFor(initial, series, observations, Derive(orders, fills).value.trades, STATES[k])
  {
    if |observations| != |series| { return Err(Misaligned); }
    if !UniqueIndices(observations) { return Err(DuplicateIndices); }
    var periods, returned, worst, exposed := Tally(initial, series, observations);
    var trades := CompletedTrades(orders, fills);
    if trades.Err? { return Err(UnderivableTrades(trades.error)); }
    var counts, complete := CountExits(trades.value, observations);
    if !complete { return Err(UnobservedExit); }
    assert series[..|series|] == series && observations[..|series|] == observations;
    hide Periods, NetReturn, WorstDrawdown, Exposed, Exits;
    var metrics := [];
    for k := 0 to 4
      invariant |metrics| == k
      invariant forall j :: 0 <= j < k ==>
                metrics[j] == MetricsFor(initial, series, observations, trades.value, STATES[j])
    {
      var s := STATES[k];
      assert TalliedFor(initial, series, observations, periods, returned, worst, exposed, s);
      metrics := metrics + [RegimeMetrics(s, periods[s], returned[s], worst[s],
                                          if periods[s] == 0 then 0.0
                                          else exposed[s] as real / periods[s] as real, counts[s])];
    }
    return Ok(metrics);
  }

  // ---------------------------------------------------------------- finished runs

  lemma {:induction false} IndexedStates(observations: seq<Observation>, index: int)
    requires forall i :: 0 <= i < |observations| ==> observations[i].index == i
    ensures StateAt(observations, index) ==
            if 0 <= index < |observations| then Some(observations[index].state) else None
  {
    if observations != [] { IndexedStates(observations[..|observations| - 1], index); }
  }

  /**
   A run whose observations cover its candles is always attributed: the series aligns, the finalized orders derive
   trades and every exit was observed.
   */
  lemma FinishedRunsAreAttributed(env: Engine.Env, strategy: Engine.Strategy, k: nat, s: Engine.State,
                                  observations: seq<Observation>)
    requires EngineTheorems.Reached(env, strategy, k, s)
    requires |observations| == k && forall i :: 0 <= i < k ==> observations[i].index == i
    ensures var c := Engine.Closing(s).state;
            && |observations| == |c.series| && UniqueIndices(observations)
            && Derive(c.orders, c.fills).Ok? && AllExitsObserved(Derive(c.orders, c.fills).value.trades, observations)
  {
    hide Engine.Run, Engine.Closing, StateAt, Derive, EngineTheorems.Reached;
    EngineTheorems.EveryRunReconciles(env, strategy, k, s);
    EngineTheorems.TwoAccountingsAgree(env, strategy, k, s);
    EngineTheorems.TradesHappenInTheRun(env, strategy, k, s);
    var trades := Derive(s.orders, s.fills).value.trades;
    forall t | 0 <= t < |trades| ensures StateAt(observations, trades[t].exitIndex).Some? {
      IndexedStates(observations, trades[t].exitIndex);
    }
  }

  // ---------------------------------------------------------------- conservation

  lemma AddShares(a: real, b: real, initial: real)
    requires initial != 0.0
    ensures Share(a, initial) + Share(b, initial) == Share(a + b, initial)
    ensures Share(0.0, initial) == 0.0
  {
  }

  /** Every account change lands in exactly one state: the four net returns add up to the whole net return. */
  lemma {:induction false} ReturnsAreConserved(initial: real, series: seq<Account>, observations: seq<Observation>)
    requires |series| == |observations| && initial != 0.0
    ensures NetReturn(initial, series, observations, STATES[0]) + NetReturn(initial, series, observations, STATES[1])
            + NetReturn(initial, series, observations, STATES[2]) + NetReturn(initial, series, observations, STATES[3])
            == Share(Before(initial, series) - initial, initial)
  {
    hide Share;
    AddShares(0.0, 0.0, initial);
    if series != [] {
      var n := |series| - 1;
      ReturnsAreConserved(initial, series[..n], observations[..n]);
      AddShares(Before(initial, series[..n]) - initial, series[n].equity - Before(initial, series[..n]), initial);
    }
  }

  /** Every period lands in exactly one state. */
  lemma {:induction false} PeriodsAreConserved(observations: seq<Observation>)
    ensures Periods(observations, STATES[0]) + Periods(observations, STATES[1])
            + Periods(observations, STATES[2]) + Periods(observations, STATES[3]) == |observations|
  {
    if observations != [] { PeriodsAreConserved(observations[..|observations| - 1]); }
  }

  /** Every completed trade lands in exactly one state, if its exit was observed. */
  lemma {:induction false} TradesAreConserved(trades: seq<CompletedTrade>, observations: seq<Observation>)
    requires AllExitsObserved(trades, observations)
    ensures Exits(trades, observations, STATES[0]) + Exits(trades, observations, STATES[1])
            + Exits(trades, observations, STATES[2]) + Exits(trades, observations, STATES[3]) == |trades|
  {
    if trades != [] {
      var front := trades[..|trades| - 1];
      forall k | 0 <= k < |front| ensures StateAt(observations, front[k].exitIndex).Some? {
        assert front[k] == trades[k];
      }
      TradesAreConserved(front, observations);
      OneState(StateAt(observations, trades[|trades| - 1].exitIndex).value);
    }
  }

  /** A state is exactly one of the four. */
  lemma OneState(s: Regime)
    ensures (if Some(s) == Some(STATES[0]) then 1 else 0) + (if Some(s) == Some(STATES[1]) then 1 else 0)
            + (if Some(s) == Some(STATES[2]) then 1 else 0) + (if Some(s) == Some(STATES[3]) then 1 else 0) == 1
  {
    match s
    case Unstable =>
    case Trending =>
    case Ranging =>
    case Indeterminate =>
  }

  /** Exposure counts periods: every state's exposure fraction is in [0, 1]. */
  lemma {:induction false} ExposureIsAFraction(
    initial: real, series: seq<Account>, observations: seq<Observation>, trades: seq<CompletedTrade>,
    s: Regime)
    requires |series| == |observations| && initial != 0.0
    ensures Exposed(series, observations, s) <= Periods(observations, s)
    ensures 0.0 <= MetricsFor(initial, series, observations, trades, s).exposure <= 1.0
  {
    ExposedWithinPeriods(series, observations, s);
    var e, p := Exposed(series, observations, s), Periods(observations, s);
    if p > 0 { FractionInUnit(e as real, p as real); }
  }

  lemma FractionInUnit(x: real, y: real)
    requires 0.0 <= x <= y && y > 0.0
    ensures 0.0 <= x / y <= 1.0
  {
  }

  lemma {:induction false} ExposedWithinPeriods(series: seq<Account>, observations: seq<Observation>, s: Regime)
    requires |series| == |observations|
    ensures Exposed(series, observations, s) <= Periods(observations, s)
  {
    if series != [] { ExposedWithinPeriods(series[..|series| - 1], observations[..|series| - 1], s); }
  }

  /** A state's drawdown is the largest seen in it, or zero; so the largest of the four is the largest of the series. */
  lemma {:induction false} DrawdownsAreAttained(series: seq<Account>, observations: seq<Observation>, s: Regime)
    requires |series| == |observations| && forall k :: 0 <= k < |series| ==> series[k].drawdown >= 0.0
    ensures forall k :: 0 <= k < |series| && observations[k].state == s ==>
            series[k].drawdown <= WorstDrawdown(series, observations, s)
    ensures WorstDrawdown(series, observations, s) == 0.0
            || exists k ::
               0 <= k < |series| && observations[k].state == s
               && series[k].drawdown == WorstDrawdown(series, observations, s)
  {
    if series != [] {
      var n := |series| - 1;
      var front, seen := series[..n], observations[..n];
      DrawdownsAreAttained(front, seen, s);
      forall k | 0 <= k < |series| && observations[k].state == s
        ensures series[k].drawdown <= WorstDrawdown(series, observations, s)
      {
        if k < n { assert front[k] == series[k] && seen[k] == observations[k]; }
      }
      if WorstDrawdown(series, observations, s) != 0.0 {
        if WorstDrawdown(series, observations, s) == WorstDrawdown(front, seen, s) {
          var k :| 0 <= k < n && seen[k].state == s && front[k].drawdown == WorstDrawdown(front, seen, s);
          assert observations[k].state == s && series[k].drawdown == WorstDrawdown(series, observations, s);
        } else {
          assert observations[n].state == s;
        }
      }
    }
  }

  // ---------------------------------------------------------------- which candles count

  ghost function SeenIn(observations: seq<Observation>, n: nat, s: Regime): set<int>
    requires n <= |observations|
  {
    set k | 0 <= k < n && observations[k].state == s
  }

  ghost function HeldIn(series: seq<Account>, observations: seq<Observation>, n: nat, s: Regime): set<int>
    requires n <= |series| == |observations|
  {
    set k | 0 <= k < n && observations[k].state == s && series[k].position > 0.0
  }

  lemma Counted(small: set<int>, large: set<int>, n: int, added: bool)
    requires n in large <==> added
    requires large - {n} == small
    ensures |large| == |small| + if added then 1 else 0
  {
    if added { assert large == small + {n}; } else { assert large == small; }
  }

  lemma SeenGrows(observations: seq<Observation>, n: nat, s: Regime)
    requires 0 < n <= |observations|
    ensures |SeenIn(observations, n, s)|
            == |SeenIn(observations, n - 1, s)| + if observations[n - 1].state == s then 1 else 0
  {
    Counted(SeenIn(observations, n - 1, s), SeenIn(observations, n, s), n - 1, observations[n - 1].state == s);
  }

  lemma HeldGrows(series: seq<Account>, observations: seq<Observation>, n: nat, s: Regime)
    requires 0 < n <= |series| == |observations|
    ensures |HeldIn(series, observations, n, s)|
            == |HeldIn(series, observations, n - 1, s)|
               + if observations[n - 1].state == s && series[n - 1].position > 0.0 then 1 else 0
  {
    Counted(HeldIn(series, observations, n - 1, s), HeldIn(series, observations, n, s), n - 1,
            observations[n - 1].state == s && series[n - 1].position > 0.0);
  }

  /** A state's periods are the candles observed in it, and its exposed ones those that end with a position. */
  lemma CountsAreOfCandles(series: seq<Account>, observations: seq<Observation>, s: Regime)
    requires |series| == |observations|
    ensures Periods(observations, s) == |SeenIn(observations, |series|, s)|
    ensures Exposed(series, observations, s) == |HeldIn(series, observations, |series|, s)|
  {
    assert series[..|series|] == series && observations[..|series|] == observations;
    PeriodsAreSeen(observations, |series|, s);
    ExposedAreHeld(series, observations, |series|, s);
  }

  lemma {:induction false} PeriodsAreSeen(observations: seq<Observation>, n: nat, s: Regime)
    requires n <= |observations|
    ensures Periods(observations[..n], s) == |SeenIn(observations, n, s)|
  {
    if n > 0 {
      PeriodsAreSeen(observations, n - 1, s);
      assert observations[..n][..n - 1] == observations[..n - 1];
      SeenGrows(observations, n, s);
      hide SeenIn;
    }
  }

  lemma {:induction false} ExposedAreHeld(series: seq<Account>, observations: seq<Observation>, n: nat, s: Regime)
    requires n <= |series| == |observations|
    ensures Exposed(series[..n], observations[..n], s) == |HeldIn(series, observations, n, s)|
  {
    if n > 0 {
      ExposedAreHeld(series, observations, n - 1, s);
      assert series[..n][..n - 1] == series[..n - 1] && observations[..n][..n - 1] == observations[..n - 1];
      HeldGrows(series, observations, n, s);
      hide HeldIn;
    }
  }

  /** The equity after `k` snapshots. */
  function EquityAt(initial: real, series: seq<Account>, k: nat): real
    requires k <= |series|
  {
    if k == 0 then initial else series[k - 1].equity
  }

  lemma BeforeIsEquity(initial: real, series: seq<Account>, k: nat)
    requires k <= |series|
    ensures Before(initial, series[..k]) == EquityAt(initial, series, k)
  {
  }

  /** A stretch of candles in one state credits its whole change of equity to that state and nothing to the others. */
  lemma {:induction false} StretchesAreCredited(
    initial: real, series: seq<Account>, observations: seq<Observation>, from: nat, end: nat, held: Regime, s: Regime)
    requires |series| == |observations| && initial != 0.0 && from <= end <= |series|
    requires forall k :: from <= k < end ==> observations[k].state == held
    ensures NetReturn(initial, series[..end], observations[..end], s)
            == NetReturn(initial, series[..from], observations[..from], s)
               + if s == held
                 then Share(EquityAt(initial, series, end) - EquityAt(initial, series, from), initial)
                 else 0.0
    decreases end
  {
    hide Share;
    AddShares(0.0, 0.0, initial);
    if end > from {
      StretchesAreCredited(initial, series, observations, from, end - 1, held, s);
      assert series[..end][..end - 1] == series[..end - 1] && observations[..end][..end - 1] == observations[..end - 1];
      BeforeIsEquity(initial, series, end - 1);
      AddShares(EquityAt(initial, series, end - 1) - EquityAt(initial, series, from),
                EquityAt(initial, series, end) - EquityAt(initial, series, end - 1), initial);
    }
  }

  /** A state's trades are those that exit on a candle observed in it. */
  lemma ExitsAreOfTrades(trades: seq<CompletedTrade>, observations: seq<Observation>, s: Regime)
    requires UniqueIndices(observations)
    ensures Exits(trades, observations, s) == |ExitedIn(trades, observations, |trades|, s)|
  {
    assert trades[..|trades|] == trades;
    ExitsAreExited(trades, observations, |trades|, s);
  }

  ghost predicate Observed(observations: seq<Observation>, index: int, s: Regime) {
    Observation(index, s) in observations
  }

  ghost function ExitedIn(trades: seq<CompletedTrade>, observations: seq<Observation>, n: nat, s: Regime): set<int>
    requires n <= |trades|
  {
    set k | 0 <= k < n && Observed(observations, trades[k].exitIndex, s)
  }

  lemma ExitedGrows(trades: seq<CompletedTrade>, observations: seq<Observation>, n: nat, s: Regime)
    requires 0 < n <= |trades|
    ensures |ExitedIn(trades, observations, n, s)|
            == |ExitedIn(trades, observations, n - 1, s)|
               + if Observed(observations, trades[n - 1].exitIndex, s) then 1 else 0
  {
    Counted(ExitedIn(trades, observations, n - 1, s), ExitedIn(trades, observations, n, s), n - 1,
            Observed(observations, trades[n - 1].exitIndex, s));
  }

  lemma {:induction false} ExitsAreExited(
    trades: seq<CompletedTrade>, observations: seq<Observation>, n: nat, s: Regime)
    requires UniqueIndices(observations) && n <= |trades|
    ensures Exits(trades[..n], observations, s) == |ExitedIn(trades, observations, n, s)|
  {
    hide UniqueIndices, Observed, StateAt;
    if n > 0 {
      ExitsAreExited(trades, observations, n - 1, s);
      assert trades[..n][..n - 1] == trades[..n - 1];
      ObservedIff(observations, trades[n - 1].exitIndex, s);
      ExitedGrows(trades, observations, n, s);
      hide ExitedIn;
    }
  }

  lemma {:induction false} ObservedIff(observations: seq<Observation>, index: int, s: Regime)
    requires UniqueIndices(observations)
    ensures StateAt(observations, index) == Some(s) <==> Observed(observations, index, s)
  {
    if observations != [] {
      var n := |observations| - 1;
      ObservedIff(observations[..n], index, s);
      assert observations == observations[..n] + [observations[n]];
    }
  }
}
