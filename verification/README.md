# Verification of the gemini-trading research core

This project models the parts of `gemini_trading` that decide whether a research result can be believed, and
proves what each of them keeps. Five components are covered.

1. **Backtest engine, accounting and trades.** `Engine` is the chronological engine as a state machine over
   candles; `BacktestEngine.Backtester` is the engine object whose fields are updated in place, each method
   proved equal to the state machine. `EngineInvariant` and `EngineSteps` carry one invariant (balanced books,
   one active order per side, sells covered by the position, fills inside their order's life, a ledger that
   mirrors the fills, trades that agree with the account) through every operation; `EngineTheorems` and
   `Liquidity` read off what it means for every run of every strategy, and `OverdrawnRun` shows the one bound on
   fees that is needed. `Simulator` is the complete order evaluation, costs and rounding included, so nothing
   about fills is assumed. What each operation does is told a second time without its code, and proved equal:
   `FillRule` (when, at what price and for how much an order fills), `Intake` (which intents become orders),
   `OrderLifecycle` (the status of every order of a run), `Turns` (every open order is evaluated once a candle),
   `TradeMeaning` (trades as flat-to-flat stretches of the fills), `Evidence` (what the recorded series, ledger
   and contexts say) and `Causality` (runs never look ahead). `CandleSteps` takes the last candle of a run apart
   for them.
2. **Closures, partial rows and segments.** `Closures`, `Exclusions` and `Segments` are the loops over ordered
   rows with declared outages, each proved to accept exactly the inputs its declarative meaning describes;
   `ExclusionFacts` and `SegmentFacts` prove conservation, maximality, uniqueness and page independence.
3. **Single-use authorization and sealing.** `FinalAccess` and `ProspectiveSeal` are step machines in which any
   number of processes interleave and may crash between any two file operations; `Calendar` is the month
   arithmetic of the prospective window.
4. **Decision machines.** `Arbitration` is one long-or-cash decision, `CandidateSchedule` the schedule built by
   carrying decisions forward and forcing cash before segment boundaries, `Baselines` the five baseline
   schedules. `HoldEpisodes`, `ScheduledPosition` and `BaselineRules` say from the inputs alone when positions
   end, where the finished schedule is long, and when the baselines trade.
5. **Numbers.** `Calibration` (least squares, Brier score, calibration error), `EntrySelectivity` (quantile
   thresholds), `QualificationPath` (drawdown, compounding), `RegimeAttribution`, `Regimes`, `Features`
   with `FeatureMatrix` (all seventy-four features) and `FeatureLaws` (what they mean), `Labels` and `RoundTrips`
   (a label is a backtest's trade). `Sorting` is the one sort they share.

How the program is read:

- `Decimal` is an exact real. Nothing is claimed about the last digit of a rounded `Decimal`; explicit rounding
  in the source (ticks, quantity steps) is modelled as floor and ceiling.
- Instants are integers in microseconds. The calendar keeps year, month, day and time of day.
- SHA-256 and canonical JSON are injective: an identity is what is hashed, bytes are what is encoded.
- A raised exception is a failure result. Where the source had already written something, the state after the
  failure keeps it.
- `mkdir(exist_ok=False)` is atomic and exclusive, `write_immutable` is an atomic create that accepts identical
  bytes.
- A strategy is an arbitrary function of everything it has been shown so far, or an exception.
- `ln` and the square root are uninterpreted functions; a law that needs one of their properties says so. The two
  z-score comparisons of the baseline are stated without the root, by squaring.
- `EngineSteps.ValidEnv` is what the dataset loader has already checked when the engine starts: candle
  geometry, positive initial cash, injective digests.

Results that differ from what one might expect:

- The simulation configuration has no upper bound on fee rates (`src/gemini_trading/research/config.py:43-67`).
  A sale can overdraw the account, and the accounting then raises, exactly when a fee rate above 100% is
  allowed (`Accounting.SalesNeverOverdrawIffFeeAtMostOne`). With rates up to 100% no accounting error can occur
  in any run (`EngineTheorems.BooksNeverRaise`); above it some run stops on one (`OverdrawnRun.OverdrawnRunStops`).
- A candidate schedule ends with an exit for a position that was never opened exactly when its last prediction
  may be entered and no segment boundary is near enough to cut it away (`CandidateSchedule.DanglingExitIff`,
  `CandidateSchedule.DanglingExitExists`). The schedule still satisfies the study strategy's constructor.
- The cooldown of the arbiter holds between contiguous predictions only. After an exit, an entry inside the
  cooldown happens exactly when a gap or a segment boundary lies in between and entry is allowed from plain cash
  (`CandidateSchedule.EntryAfterAnExitIff`); a finished schedule with such an entry is
  `CandidateSchedule.CooldownSkippedAcrossAGap`.
- A closure accepts any identity that is not blank, such as "Outage 1". The segmenter and the partial-row matcher
  refuse it once it is matched, so an accepted closure manifest can still fail there; the exact condition is
  `Closures.AllWellNamed` in `Segments.SegmentCandles` and `Exclusions.MatchAndExclude`.
- Month addition is additive exactly when the month in between does not clamp the day
  (`Calendar.AdditiveUnlessClamped`); on month starts it always is.
- The "observed more than once" branch of the segmenter and two branches of the partial-row matcher (a declared
  row that appears twice, an expected close that differs from the declared one) cannot be reached.

`dafny verify dfyconfig.toml` checks the whole project.

## Model
| member | source | states |
|---|---|---|
| Simulator.FloorToBounds | src/gemini_trading/execution/simulator/precision.py:13-33 | adverse rounding moves a price or quantity by less than one step, never up for sells and quantities |
| Simulator.FillIsBounded | src/gemini_trading/execution/simulator/fills.py:88-201 | every fill is inside the order's eligible window, at most the remainder, at most the cash (fee included) for buys and the position for sells, and the returned order is the same order with the fill added and a consistent status; when and for how much it fills is `FillRule.FillsIffItCan` |
| Simulator.EvaluationRaisesOnlyOnCosts | src/gemini_trading/execution/simulator/fills.py:88-201 | on a verified candle evaluation raises if and only if an open market order inside its lifetime is left without a positive price by costs and rounding; every constructor check on fill and order passes |
| Simulator.OnTickIffMultiple | src/gemini_trading/execution/simulator/precision.py:13-33 | a price passes the tick test if and only if it is a whole number of ticks |
| FillRule.RoundedIsMarketPrice | src/gemini_trading/execution/simulator/fills.py:42-55 | the price of a market order is the one positive grid price less than a tick beyond the reference moved by spread and slippage, on the side that is worse for the order |
| FillRule.FillsIffItCan | src/gemini_trading/execution/simulator/fills.py:32-201 | an order fills if and only if it is open on this candle, the candle traded at a price the order accepts (for a limit: inside the candle, on the grid and beaten, or touched in the diagnostic) and some whole number of steps within remainder, participation, cash or position meets both minimums; it then fills there for the largest such quantity |
| FillRule.CostsExplainTheFill | src/gemini_trading/execution/simulator/fills.py:145-190 | the recorded fee, spread and slippage are what the configuration charges, and with a rounding cost of less than a tick a unit they add up to the whole distance from the reference price |
| Liquidity.FillWithinBudget | src/gemini_trading/execution/simulator/fills.py:58-78 | a fill never takes more than what earlier fills left of volume times participation |
| Accounting.FillIsAppliedIffSolvent | src/gemini_trading/research/accounting.py:21-110 | against a balanced account a fill the engine may apply is accepted if and only if cash stays non-negative; then cash plus cost basis minus realized P&L is unchanged, otherwise the one error is the negative balance of a sale |
| Accounting.SalesNeverOverdrawIffFeeAtMostOne | src/gemini_trading/research/accounting.py:39-110 | fills at a fee rate are always applicable if and only if the rate is at most 100%, with a concrete overdrawn sale above it |
| Accounting.MarkKeepsBalance | src/gemini_trading/research/accounting.py:113-125 | marking fails exactly for a non-positive close; otherwise equity is cash plus position at the close, the peak is the greater of the old peak and that equity, the drawdown is the loss from the peak as a share of it, and nothing else changes |
| Accounting.FillsAtAverageCost | src/gemini_trading/research/accounting.py:39-110 | a buy adds its notional and fee to the cost basis; a sale realizes its proceeds less the average cost of what was sold and leaves the average cost of the rest; cash, fees and costs move by exactly the fill, and equity, peak and drawdown are marked at its price |
| Accounting.VerifyReconciliation | src/gemini_trading/research/accounting.py:128-170 | the loop accepts exactly the ledgers whose sequences increase, whose fills are distinct, whose every running balance matches and whose totals are the account's |
| Trades.CompletedTrades | src/gemini_trading/research/metrics.py:66-136 | the loop over the fills computes the derivation, or its first error; what the derived trades are is `TradeMeaning.TradesAreEpisodes` |
| Trades.StepAgrees | src/gemini_trading/research/metrics.py:84-134 | one fill keeps the identity between proportional average-cost P&L and the P&L of completed trades |
| Trades.StepPartitions | src/gemini_trading/research/metrics.py:84-134 | one fill adds exactly its own identity to the attributed ones |
| Trades.TradesHappenOnFills | src/gemini_trading/research/metrics.py:84-134 | entry and exit of every derived trade are no earlier than a lower bound of all fill indices |
| TradeMeaning.TradesAreEpisodes | src/gemini_trading/research/metrics.py:66-136 | the trades cut the fills at exactly the points without a position; each enters on the candle of the buy that opened it, which is its first entry fill, exits on the candle of the sale that closed it, its last exit fill, is held in between, and carries the sums, identities and returns of exactly the fills of its stretch |
| TradeMeaning.RunTradesAreEpisodes | src/gemini_trading/research/metrics.py:66-136 | the same for the finished orders and fills of every run, with what is owned after the last fill being the account's position |
| EngineInvariant.SortKeeps | src/gemini_trading/research/engine.py:147-152 | orders are visited in ascending identity, each exactly once |
| EngineSteps.EvaluateOneKeeps | src/gemini_trading/research/engine.py:174-216 | evaluating one active order keeps the whole invariant and takes the order off the list still to be evaluated on this candle, or stops with a permitted failure; the status it leaves is `OrderLifecycle.OrdersEndOnTime` |
| EngineSteps.EvaluateAllKeeps | src/gemini_trading/research/engine.py:174-216 | the same for any list of distinct orders, each evaluated once |
| Turns.PassTakesTurns | src/gemini_trading/research/engine.py:174-216 | in a pass over standing orders each waits untouched until its turn and then fills if and only if it can, against the account and volume its predecessors left, at its price and for the largest quantity; otherwise no money or quantity moves |
| Turns.EveryOrderGetsItsTurn | src/gemini_trading/research/engine.py:308-389 | on every candle of every run the first pass gives each order still open its one turn by ascending identity, and the second gives exactly the orders just accepted for this close theirs; there are no other fills |
| OrderLifecycle.OrdersEndOnTime | src/gemini_trading/research/engine.py:174-216 | after k candles of any run an order is Filled if and only if complete; an incomplete one is Accepted and untouched before its window, Cancelled after its candle if IOC or BAR, active while a GTC window lasts and Expired after it |
| OrderLifecycle.ClosingSettlesOrders | src/gemini_trading/research/engine.py:391-406 | closing a run leaves every order Filled, Expired or Cancelled by the same terms and changes nothing else about it |
| EngineSteps.AcceptKeeps | src/gemini_trading/research/engine.py:218-306 | acceptance keeps one active order per side and covered sells, and a new order identity never collides |
| Intake.RefusedUnlessAdmitted | src/gemini_trading/research/engine.py:242-262 | a lone intent is refused if and only if one of the clauses of acceptance fails, taken in no order, and then for a reason that holds |
| Intake.ConflictIffSeveral | src/gemini_trading/research/engine.py:218-223 | the intents of a decision conflict if and only if there are at least two |
| Intake.AcceptanceAnswers | src/gemini_trading/research/engine.py:225-306 | a decision yields one order with exactly the terms and window of its lone admissible intent, or one recorded refusal per intent, and nothing else changes |
| Intake.EveryIntentIsAnswered | src/gemini_trading/research/engine.py:225-306 | in every run every intent ever made became one order with its terms or one justified refusal, never both, and nothing else was ordered or refused |
| EngineSteps.SameCloseKeeps | src/gemini_trading/research/engine.py:348-385 | the same-close pass over the orders just accepted keeps the whole invariant and marks the account, or stops with a permitted failure |
| EngineSteps.ProcessKeeps | src/gemini_trading/research/engine.py:308-389 | one candle keeps the invariant or stops with a permitted failure |
| EngineSteps.RunKeeps | src/gemini_trading/research/engine.py:308-421 | for any dataset, strategy and number of candles, every reached state satisfies the invariant and every early stop is a permitted one |
| CandleSteps.LastCandle | src/gemini_trading/research/engine.py:308-421 | every state a run reaches was left by one whole candle: checks, first pass, decision, acceptance, second pass, in that order |
| Causality.RunsReadThePast | src/gemini_trading/research/engine.py:308-421 | two experiments that agree on terms, on the first k candles and on the boundaries among them, under strategies that agree on what they were shown, are the same run up to candle k |
| Evidence.RecordedPeaks | src/gemini_trading/research/accounting.py:15-125 | every recorded equity is cash plus position at that close, its drawdown the loss from its peak, and its peak the greatest of the initial cash, every equity after a fill and every marked equity up to then |
| Evidence.LedgerMirrorsFills | src/gemini_trading/research/accounting.py:39-110 | in every run the k-th ledger entry states what the k-th fill did on its order's side, and the account's fees and execution costs are the sums over the fills |
| Evidence.StrategySeesMarkedCandles | src/gemini_trading/research/engine.py:348-362 | the strategy is shown each candle once, in order, with the account marked at its close |
| Turns.StrategySeesOpenOrders | src/gemini_trading/research/engine.py:355-362 | on every candle the strategy is shown the account and exactly the orders still open after the first pass, each once, by ascending identity |
| EngineTheorems.EveryRunReconciles | src/gemini_trading/research/engine.py:391-406 | closing any reached state succeeds, leaves no active order and reconciles, so no reconciliation error in `finalize` can occur |
| EngineTheorems.BooksNeverRaise | src/gemini_trading/research/engine.py:174-389 | with fee rates up to 100% no run ever raises an accounting error or a duplicate order identity |
| OverdrawnRun.OverdrawnRunStops | src/gemini_trading/research/accounting.py:39-110 | for every taker fee above 100% there is a dataset and a strategy whose third candle stops the engine on a negative balance |
| OverdrawnRun.BooksAreSafeIffFeeAtMostOne | src/gemini_trading/research/config.py:43-67 | no run under a taker fee rate (maker rate no higher) ever stops on its books if and only if the rate is at most 100% |
| EngineTheorems.CashAndCostAreConserved | src/gemini_trading/research/accounting.py:39-110 | in every reachable state cash plus cost basis is initial cash plus realized P&L, and average price times quantity is cost basis |
| EngineTheorems.SellsNeverExceedPosition | src/gemini_trading/research/engine.py:225-306 | an active sell never asks for more than is owned, so the simulator's position limit changes nothing and its shortage result cannot occur |
| EngineTheorems.TwoAccountingsAgree | src/gemini_trading/research/metrics.py:66-136 | on every reachable fill list the trades derive without error, realized P&L minus trade P&L is exactly the open trade's unreleased part, the two agree at every flat point, and trade fill identities partition the fills |
| EngineTheorems.ClosingKeepsTrades | src/gemini_trading/research/engine.py:391-406 | the orders that `finalize` leaves derive the same trades as the orders of the run |
| EngineTheorems.TradesHappenInTheRun | src/gemini_trading/research/metrics.py:66-136 | every completed trade of every run enters and exits on candles the run has processed |
| EngineTheorems.NoOrderIsEvaluatedTwice | src/gemini_trading/research/engine.py:348-385 | on every candle of every run each of the two passes visits an order once, and no order is in both |
| EngineTheorems.FillsRespectOrderTerms | src/gemini_trading/research/engine.py:174-306 | every fill lies in its order's window (IOC and BAR on the eligible candle alone, next-candle timing at least latency plus one later), an order fills at most once per candle, and filled quantity is the sum of its fills |
| EngineTheorems.ActiveOrdersOutliveTheCandle | src/gemini_trading/research/engine.py:174-216 | after candle i every active order expires later than i, and there is at most one per side |
| EngineTheorems.SameSegmentSameCount | src/gemini_trading/research/engine.py:328-346 | no boundary lies between two candles if and only if the engine counts them in the same segment |
| EngineTheorems.NothingSpansASegment | src/gemini_trading/research/engine.py:328-346 | in every run no fill, active order or completed trade spans a segment boundary |
| Liquidity.CandleFills | src/gemini_trading/research/engine.py:348-385 | the evaluation before the decision and the same-close pass after it share one participation budget |
| Liquidity.RunsRespectVolume | src/gemini_trading/research/engine.py:174-216 | in every run, on every candle, all fills together stay within volume times participation |
| BacktestEngine.Backtester.constructor | src/gemini_trading/research/engine.py:78-101 | a new engine holds the start state |
| BacktestEngine.Backtester.Evaluate | src/gemini_trading/research/engine.py:180-216 | the in-place loop body computes the step function, partial effects of a failure included; what the step does is `Turns.EveryOrderGetsItsTurn` and `OrderLifecycle.OrdersEndOnTime` |
| BacktestEngine.Backtester.EvaluateOrders | src/gemini_trading/research/engine.py:174-216 | the in-place loop computes the evaluation of the sorted orders |
| BacktestEngine.Backtester.RecordRejection | src/gemini_trading/research/engine.py:154-172 | a rejection is appended and nothing else changes |
| BacktestEngine.Backtester.Accept | src/gemini_trading/research/engine.py:225-306 | the in-place loop over intents computes acceptance |
| BacktestEngine.Backtester.MarkAccount | src/gemini_trading/research/engine.py:354 | only the account is replaced by its mark, or nothing on failure |
| BacktestEngine.Backtester.Open | src/gemini_trading/research/engine.py:328-354 | the first half of a candle computes what the strategy will see |
| BacktestEngine.Backtester.Settle | src/gemini_trading/research/engine.py:362-389 | the second half computes the state after the decision |
| BacktestEngine.Backtester.Process | src/gemini_trading/research/engine.py:308-389 | one candle in place is one step of the state machine, with what a failure leaves behind |
| BacktestEngine.Backtester.Finalize | src/gemini_trading/research/engine.py:391-406 | idempotent; fails exactly when marking fails or the ledger does not reconcile, and otherwise finalizes |
| BacktestEngine.RunBacktest | src/gemini_trading/research/engine.py:409-421 | a run stops at a permitted failure or ends finalized and reconciled |
| BacktestEngine.FailureEndsTheRun | src/gemini_trading/research/engine.py:409-421 | nothing happens after a failure |
| Closures.CheckClosureIsExact | src/gemini_trading/data/exchange_closures.py:219-255 | the per-closure checks accept exactly the closures that are aligned, inside the window and whose counts are the slots they span |
| Closures.CheckManifest | src/gemini_trading/data/exchange_closures.py:188-258 | comparing neighbours accepts exactly the manifests of the current schema with a named provider whose closures are exact, pairwise separated by an open slot and have distinct keys |
| Segments.CheckStructure | src/gemini_trading/data/segments.py:264-326 | the structural loop accepts exactly the sound, strictly increasing sequences of the request |
| Segments.SegmentCandles | src/gemini_trading/data/segments.py:109-326 | segmentation succeeds if and only if scope, slots and structure fit, gaps and closures are in one-to-one correspondence and every closure identity has the format a segment demands; the result partitions the candles at exactly those gaps, and the "observed more than once" error never occurs |
| Segments.Scan | src/gemini_trading/data/segments.py:285-326 | the scanning loop by itself, against the same meaning, closure identities included |
| Segments.CoveringIndicesCount | src/gemini_trading/data/segments.py:314-316 | ascending picks that cover every closure are all the closures, in order |
| SegmentFacts.SlotsAreConserved | src/gemini_trading/data/segments.py:264-326 | (last open - first open) / timeframe + 1 is the candle count plus all declared unavailable slots |
| SegmentFacts.SegmentationIsUnique | src/gemini_trading/data/segments.py:264-326 | segments are maximal: no other segmentation satisfies the same meaning |
| SegmentFacts.SegmentationIsAccepted | src/gemini_trading/data/segments.py:118-151 | the manifest built from a segmentation passes every check of its own constructor |
| SegmentFacts.NumberIsCount | src/gemini_trading/data/segments.py:153-157 | a candle's segment number is one plus the number of boundaries at or before it: the engine's own count |
| SegmentFacts.SegmentNumberForIndex | src/gemini_trading/data/segments.py:329-337 | the lookup loop returns that count on every covered index and an error elsewhere |
| SegmentFacts.CoveredUpTo | src/gemini_trading/data/segments.py:329-337 | every index below a segment's end lies in some segment |
| SegmentFacts.TradesStayInTheirSegment | src/gemini_trading/research/engine.py:328-346 | in every run over a segmented dataset, entry and exit of a completed trade lie in one and the same segment |
| Exclusions.MatchAndExclude | src/gemini_trading/data/exclusions.py:312-423 | the nested loops accept exactly the row lists whose rows are sound, whose every closure is evident and whose matched closure identities have the format an exclusion demands, and return the canonical candles and one true record per closure |
| Exclusions.CheckEvidence | src/gemini_trading/data/exclusions.py:404-412 | one closure is evident if and only if its partial row is present, its missing slots are empty and trading resumes on time |
| Exclusions.Conclude | src/gemini_trading/data/exclusions.py:394-423 | the completeness checks after the last row decide acceptance |
| ExclusionFacts.CanonicalIsPrefix | src/gemini_trading/data/exclusions.py:387-392 | canonical candles are a prefix of the undeclared rows, in raw order; what is dropped is a suffix |
| ExclusionFacts.OnePartialPerClosure | src/gemini_trading/data/exclusions.py:396-412 | accepted rows hold exactly one partial row per closure |
| ExclusionFacts.NothingIsLost | src/gemini_trading/data/exclusions.py:312-423 | every raw row is a canonical candle, an excluded row or part of the dropped tail |
| ExclusionFacts.PositionIsTrue | src/gemini_trading/data/exclusions.py:373-385 | the stored index is where the partial row stands among all raw rows |
| ExclusionFacts.PositionsAscend | src/gemini_trading/research/dataset_reader.py:450-454 | exclusions come out in closure order with distinct closures and rows, so the declaration-order check cannot reject them |
| ExclusionFacts.PagingDoesNotMatter | src/gemini_trading/data/exclusions.py:312-423 | two ways of splitting the rows into pages give the same canonical candles and positions |
| ExclusionFacts.AcceptedClosuresAreWellNamed | src/gemini_trading/data/exclusions.py:116-118 | evidence is accepted only when every declared closure identity has the format that segments demand too, so the segmenter never refuses a name after the matcher |
| FinalAccess.OneReceiptLoadsPerIdentity | src/gemini_trading/strategy/final_access.py:254-346 | whatever the files contain, at most one receipt per stable identity loads |
| FinalAccess.RequireNamesOneReceipt | src/gemini_trading/strategy/final_access.py:348-358 | requiring a receipt succeeds if and only if it is exactly the one this identity would have been issued and it loads |
| FinalAccess.AuthorizedAtMostOnce | src/gemini_trading/strategy/final_access.py:300-329 | under any interleaving and any crashes, a stable identity is authorized at most once |
| FinalAccess.OnlySealConflictsRaise | src/gemini_trading/strategy/final_access.py:300-329 | an authorizer raises only because the identity is already sealed; the receipt directory and both writes never conflict |
| FinalAccess.StoredReceiptsLoad | src/gemini_trading/strategy/final_access.py:331-346 | every stored receipt loads and its seal names no other |
| FinalAccess.ReturnedReceiptsStayLoadable | src/gemini_trading/strategy/final_access.py:331-358 | a returned receipt loads and can be required after any later steps |
| FinalAccess.RowsFollowDurableReceipt | src/gemini_trading/strategy/final_access.py:361-369 | whoever may load final rows holds a receipt that is already durable |
| FinalAccess.OnlyHoldersLoadRows | src/gemini_trading/strategy/final_access.py:361-369 | no other step loads final rows |
| FinalAccess.CrashAfterSealIsFinal | src/gemini_trading/strategy/final_access.py:300-329 | a crash between the seal's mkdir and the receipt's write blocks that identity forever |
| FinalAccess.AuthorizedIffUnsealed | src/gemini_trading/strategy/final_access.py:300-329 | an undisturbed caller gets its receipt if and only if nobody sealed the identity before |
| FinalAccess.FinalAccessStore.Authorize | src/gemini_trading/strategy/final_access.py:300-329 | the four file operations in sequence are the four protocol steps, failures included |
| Calendar.AddMonthsMoves | src/gemini_trading/strategy/prospective_final.py:14-20 | the month number moves by exactly the argument, the day clamps to the month's length |
| Calendar.AdditiveUnlessClamped | src/gemini_trading/strategy/prospective_final.py:14-20 | adding twice is adding once if and only if the month in between does not clamp the day further |
| Calendar.FebruaryClampsJanuary | src/gemini_trading/strategy/prospective_final.py:14-20 | for every January day of every year: one month twice is two months if and only if February is long enough for the day |
| Calendar.MonthStartsAdd | src/gemini_trading/strategy/prospective_final.py:14-20 | on month starts addition is additive |
| Calendar.MonthStartsAreMonotone | src/gemini_trading/strategy/prospective_final.py:14-20 | and strictly monotone |
| Calendar.NextBoundaryIsLeast | src/gemini_trading/strategy/prospective_final.py:22-25 | the window starts at the least month boundary strictly after verification |
| Calendar.WindowExistsIff | src/gemini_trading/strategy/prospective_final.py:28-88 | a window exists if and only if verification is not before the cutoff and the months fit the calendar; the constructor never rejects it |
| Calendar.TruncationKeepsWindow | src/gemini_trading/research/serialization.py:17-23 | truncating verification to milliseconds never moves the window |
| ProspectiveSeal.StoredSealLoadsBack | src/gemini_trading/strategy/prospective_seal.py:169-286 | every accepted request builds a seal that loads back equal except for truncated verification, and equal if and only if no microseconds were lost |
| ProspectiveSeal.AtMostOneSealEver | src/gemini_trading/strategy/prospective_seal.py:208-286 | under any creates and crashes one seal exists at most, and what a create returned loads back |
| ProspectiveSeal.SpawnsIffCreatable | src/gemini_trading/strategy/prospective_seal.py:31-70 | a request starts a create if and only if the run is qualified, the cutoff is the locked one, verification is not before it and nineteen months are left in the calendar |
| ProspectiveSeal.RefusedRequestsWriteNothing | src/gemini_trading/strategy/prospective_seal.py:221-234 | a request that is not creatable leaves no trace: wherever in a run it is made, the run ends as if it had not been |
| Arbitration.EntersIffAllowed | src/gemini_trading/strategy/arbitration.py:181-277 | an entry happens if and only if one order-free condition holds, and then it is exactly one decision with a positive stop |
| Arbitration.ExitsIffDue | src/gemini_trading/strategy/arbitration.py:279-377 | from long, the decision exits if and only if the low touched the greater of the carried stop and the trail, or the regime is unstable, or the hold is at its maximum, or indeterminate regimes exceed the tolerance, or past the minimum hold the specialist's probability is at or below the exit level; stop, age, streak, cooldown and reason are then determined |
| Arbitration.OverlaysOnlyAffectEntries | src/gemini_trading/strategy/arbitration.py:145-181 | an overlay never changes a long decision; one that asks for no more keeps every base entry unchanged; a new entry needs a lower threshold or a dropped veto |
| Arbitration.DecisionKeepsBounds | src/gemini_trading/strategy/arbitration.py:279-461 | one decision keeps hold age, cooldown and streak within the policy, never lowers the stop, and carries entry price and highest close; when it exits is `Arbitration.ExitsIffDue` |
| Arbitration.ActionsFollowPosition | src/gemini_trading/strategy/arbitration.py:167-461 | entries come only from cash without cooldown, holds and exits only from long, and an exit starts the full cooldown |
| CandidateSchedule.ForceCashIsCash | src/gemini_trading/strategy/study_predictions.py:109-123 | forcing leaves round trips only, with nothing after the last safe decision |
| CandidateSchedule.ForceBetweenIsFirst | src/gemini_trading/strategy/study_predictions.py:264-266 | forcing several crossed boundaries in turn is forcing the first one |
| CandidateSchedule.CloseLongIsCash | src/gemini_trading/strategy/study_predictions.py:75-84 | closing before a gap leaves cash and keeps every boundary so far clear |
| CandidateSchedule.StepKeeps | src/gemini_trading/strategy/study_predictions.py:250-361 | one prediction fails only on a malformed row and keeps the events ordered, alternating, in step with the position and clear of every boundary so far |
| CandidateSchedule.WalkKeeps | src/gemini_trading/strategy/study_predictions.py:250-361 | the same for every prediction list, so the position checks of the arbiter's input never fire |
| CandidateSchedule.ScheduleIsSafe | src/gemini_trading/strategy/study_predictions.py:211-371 | the finished schedule is strictly ordered, in cash from the last safe decision before every declared boundary until that boundary, and a word of entry-exit pairs if and only if no dangling exit is left |
| CandidateSchedule.DanglingExitExists | src/gemini_trading/strategy/study_predictions.py:362-365 | entering on the last prediction does leave one |
| CandidateSchedule.DanglingExitIff | src/gemini_trading/strategy/study_predictions.py:362-371 | the schedule ends with an exit of a position never opened if and only if the last row may be entered from its carried state and no boundary is near enough to cut it away |
| CandidateSchedule.SortedAlready | src/gemini_trading/strategy/study_predictions.py:371 | the final sort changes nothing |
| CandidateSchedule.SourcesAreRows | src/gemini_trading/strategy/study_predictions.py:279-293 | the delayed, inverted and volume-ablation variants read valid rows at the same indices, and the plain variant reads the rows themselves |
| CandidateSchedule.VariantsMoveAroundHalf | src/gemini_trading/strategy/study_predictions.py:279-293 | the variants scale the distance of both probabilities from one half by plus or minus one or a half, negate the expectations when inverted, and read the previous row exactly when delayed and contiguous |
| CandidateSchedule.WalkIsRun | src/gemini_trading/strategy/study_predictions.py:250-361 | each decision is taken from the state its predecessor left, or from cash after a break |
| CandidateSchedule.CooldownIsServed | src/gemini_trading/strategy/study_predictions.py:344-361 | without a break the whole cooldown after an exit is spent in cash |
| CandidateSchedule.EntryAfterAnExitIff | src/gemini_trading/strategy/study_predictions.py:269-361 | after an exit, with only cash in between, a decision enters if and only if entry is allowed from plain cash and either the cooldown is over or some gap or boundary since the exit has ended it |
| CandidateSchedule.BreakForgetsCooldown | src/gemini_trading/strategy/study_predictions.py:269-277 | directly after a gap or boundary a decision enters if and only if entry is allowed from plain cash |
| CandidateSchedule.CooldownSkippedAcrossAGap | src/gemini_trading/strategy/study_predictions.py:211-371 | a concrete input whose finished schedule exits at index 1 and enters again at index 3, inside the cooldown |
| CandidateSchedule.HoldCarriesTheEpisode | src/gemini_trading/strategy/study_predictions.py:328-348 | along an unbroken hold, age, entry price, specialist and highest close are exactly the episode's |
| HoldEpisodes.PositionEndsIff | src/gemini_trading/strategy/study_predictions.py:211-371 | along an unbroken hold, from the predictions since the entry alone: the position ends if and only if the exit rule holds of the episode's stop, age, indeterminate streak and the entry's own probability |
| HoldEpisodes.StopIsHighestTrail | src/gemini_trading/strategy/arbitration.py:279-302 | the carried stop of an episode is the highest of its initial stop and every trail since, and one of them |
| HoldEpisodes.HeldCandlesStayAboveTheStop | src/gemini_trading/strategy/arbitration.py:302-309 | every candle held through stayed above the stop carried out of it |
| HoldEpisodes.SchedulesOnlyEnterWhereDecided | src/gemini_trading/strategy/study_predictions.py:211-371 | the finished schedule never enters where the arbiter did not |
| ScheduledPosition.ScheduleFollowsDecisions | src/gemini_trading/strategy/study_predictions.py:211-371 | at every prediction the finished schedule is long if and only if the arbiter's decision there is, it is not the last prediction, no gap follows it and no boundary is within the latency ahead |
| CandidateSchedule.HoldsAreBounded | src/gemini_trading/strategy/arbitration.py:279-377 | no unbroken hold outlasts the maximum hold by more than the exit candle |
| CandidateSchedule.StopNeverFalls | src/gemini_trading/strategy/arbitration.py:279-377 | along an unbroken hold the trailing stop never falls |
| CandidateSchedule.CandidateEvents | src/gemini_trading/strategy/study_predictions.py:211-371 | for every variant the loop computes the walk over the rows it reads and its finish, with the errors, order, boundary safety and round trips stated outright |
| Baselines.EmaSeries | src/gemini_trading/strategy/baselines.py:227-238 | the loop computes the recursive average at every index |
| Baselines.EmaStaysInRange | src/gemini_trading/strategy/baselines.py:227-238 | an average never leaves the range of the values seen so far |
| BaselineRules.EmaMovesTowardValue | src/gemini_trading/strategy/baselines.py:227-238 | an average starts at the first value and moves two parts in span + 1 of the way to each new one |
| Baselines.EmaSchedule | src/gemini_trading/strategy/baselines.py:275-285 | the loop computes the crossover path |
| Baselines.EmaIsWord | src/gemini_trading/strategy/baselines.py:275-285 | a word of round trips that is long exactly while the fast average exceeds the slow one past candle 49 |
| BaselineRules.EmaTradesIff | src/gemini_trading/strategy/baselines.py:275-285 | it enters, exits and holds exactly by whether the fast average is above the slow one now and was before |
| Baselines.DonchianSchedule | src/gemini_trading/strategy/baselines.py:288-302 | the loop computes the channel path |
| Baselines.DonchianIsWord | src/gemini_trading/strategy/baselines.py:288-302 | a word of round trips, in cash for the first twenty candles |
| Baselines.DonchianBreaksChannels | src/gemini_trading/strategy/baselines.py:288-302 | it enters exactly on a close above all of the last twenty highs and exits exactly on a close below all of the last ten lows |
| Baselines.ZscoreNeverRaises | src/gemini_trading/strategy/baselines.py:305-346 | long if and only if stop and highest close are set, the stop is positive, the highest close is the episode's maximum, and neither raise can fire |
| Baselines.ZscoreStopNeverFalls | src/gemini_trading/strategy/baselines.py:336-340 | while a position stays open its stop never falls and stays within three ranges of the high |
| BaselineRules.TrueRangeIsSpan | src/gemini_trading/strategy/baselines.py:241-250 | the true range is the span of the candle stretched to the previous close |
| BaselineRules.StretchIsZscore | src/gemini_trading/strategy/baselines.py:314-324 | the comparisons without the root are those of (close - mean) / root for whatever root the variance has, and the score is undefined exactly for equal closes |
| BaselineRules.StopIsHighest | src/gemini_trading/strategy/baselines.py:325-342 | the stop of an open position is the highest of the one it started with and every trail since |
| BaselineRules.ZscoreTradesIff | src/gemini_trading/strategy/baselines.py:305-346 | it enters if and only if it holds nothing, the score is at most -1.5 and the entry's stop is positive; it closes a position opened on candle e if and only if the low reaches that episode's stop or the score is zero or more |
| BaselineRules.ZscoreWaits | src/gemini_trading/strategy/baselines.py:305-313 | nothing happens before the twenty-fourth candle |
| Baselines.ZscoreSchedule | src/gemini_trading/strategy/baselines.py:305-346 | the loop computes the machine and never fails |
| Baselines.ValidateCandles | src/gemini_trading/strategy/baselines.py:349-359 | accepts exactly completed candles of one series in strict order |
| Baselines.BuildBaselineSchedules | src/gemini_trading/strategy/baselines.py:362-373 | all five schedules, if and only if the candles are usable |
| Baselines.SchedulesAreWords | src/gemini_trading/strategy/baselines.py:217-346 | every schedule has one action per candle and is a prefix of (CASH* ENTER HOLD* EXIT)* |
| Baselines.SchedulesReadThePast | src/gemini_trading/strategy/baselines.py:362-373 | the schedules of a candle prefix are the prefixes of the schedules |
| Calibration.FitExistsIff | src/gemini_trading/strategy/calibration.py:221-266 | a fit exists if and only if lengths agree, all are probabilities and two of them differ |
| Calibration.NormalEquations | src/gemini_trading/strategy/calibration.py:240-258 | the residuals of the fit sum to zero and are orthogonal to the probabilities |
| Calibration.FitIsTheLeastSquaresLine | src/gemini_trading/strategy/calibration.py:240-258 | the fit is the unique minimiser of the squared error over all lines, for any number of observations |
| Calibration.MapStaysBetweenEndpoints | src/gemini_trading/strategy/calibration.py:269-276 | the clamped map never leaves the interval between its endpoint values and is the line in between |
| Calibration.BrierIsBounded | src/gemini_trading/strategy/calibration.py:279-287 | the score is between zero and the mean absolute error, so the guard of stored evidence never rejects it |
| Calibration.BrierIsSquaredError | src/gemini_trading/strategy/calibration.py:279-287 | the score is the squared error of the probabilities against the targets per observation, exists exactly for matching non-empty probabilities, and is zero exactly for a forecast that is the outcome |
| Calibration.ExactlyOneBin | src/gemini_trading/strategy/calibration.py:311-318 | every probability falls in exactly one of the ten bins |
| Calibration.GapsAreBounded | src/gemini_trading/strategy/calibration.py:301-330 | the ten absolute gaps add up to at most the absolute errors |
| Calibration.GapsCoverTheAverage | src/gemini_trading/strategy/calibration.py:301-330 | the ten absolute gaps add up to at least the total signed error, and to exactly that when one bin holds every observation |
| Calibration.ExpectedCalibrationError | src/gemini_trading/strategy/calibration.py:301-330 | the loop over bins computes the gap total per observation, at most the mean absolute error and within [0, 1] |
| EntrySelectivity.QuantileIgnoresOrder | src/gemini_trading/strategy/entry_selectivity.py:94-110 | only the multiset of scores matters, and the quantile exists if and only if the percentile is a probability and there is a score |
| EntrySelectivity.QuantileRank | src/gemini_trading/strategy/entry_selectivity.py:94-110 | between two scores, with at least floor((n-1)p)+1 scores at or below it and a bounded number strictly below |
| EntrySelectivity.QuantileInterpolates | src/gemini_trading/strategy/entry_selectivity.py:94-110 | for any ascending arrangement of the scores the quantile is the two scores at the ranks that enclose (n - 1)p, mixed in the proportion of the distances |
| EntrySelectivity.QuantileIsMonotone | src/gemini_trading/strategy/entry_selectivity.py:94-110 | monotone in the percentile |
| EntrySelectivity.CheckedProbabilities | src/gemini_trading/strategy/entry_selectivity.py:179-184 | the validating loop accepts exactly probabilities and copies them |
| EntrySelectivity.BuildEntryThreshold | src/gemini_trading/strategy/entry_selectivity.py:117-239 | an artifact is built if and only if policy identity, fold, order, keys, percentile, probabilities, feature rows and count all fit; it holds exactly the regime-eligible rows in order, their scores, their quantile and the threshold, which is at least the floor and at most one |
| EntrySelectivity.EligibleAre | src/gemini_trading/strategy/entry_selectivity.py:126-148 | the rows kept are exactly the indices the regime and, for mean reversion, the stretch condition admit, in strictly increasing order |
| EntrySelectivity.ArtifactIsUnique | src/gemini_trading/strategy/entry_selectivity.py:186-203 | the meaning stated for an artifact leaves no freedom: one request has one artifact |
| EntrySelectivity.ThresholdsAreNested | src/gemini_trading/strategy/entry_selectivity.py:201-203 | effective thresholds are ordered like their percentiles and admitted scores are nested |
| EntrySelectivity.ThresholdAdmits | src/gemini_trading/strategy/entry_selectivity.py:201-203 | a threshold the floor does not raise keeps out at most floor((n-1)p)+1 of the n scores, and never all of them |
| QualificationPath.AggregatePathMetrics | src/gemini_trading/strategy/qualification_execution.py:103-126 | one pass computes the growth and the maximum of all falls between any two moments, the start included |
| QualificationPath.DrawdownRange | src/gemini_trading/strategy/qualification_execution.py:103-126 | the maximum drawdown is unique, in [0, 1), and zero if and only if no return is negative |
| QualificationPath.FoldOosReturns | src/gemini_trading/strategy/qualification_execution.py:186-211 | the loop succeeds if and only if the path is complete and every equity measured from is positive, and returns the period returns |
| QualificationPath.FoldGrowth | src/gemini_trading/strategy/qualification_execution.py:186-211 | compounding a fold telescopes to closing over opening equity |
| QualificationPath.GrowthOfConcatenation | src/gemini_trading/strategy/qualification_execution.py:214-221 | growth over concatenated paths is the product |
| QualificationPath.CasePeriodReturns | src/gemini_trading/strategy/qualification_execution.py:214-221 | the concatenation of the folds grows by the product of their equity ratios |
| QualificationPath.AggregateCase | src/gemini_trading/strategy/qualification_execution.py:224-229 | the aggregate net return is that product less one, and is refused exactly for no fold, an unmeasurable path or a fold that ends without equity |
| RegimeAttribution.Tally | src/gemini_trading/strategy/evaluation.py:181-195 | the loop fills the four tables with what each state is credited with |
| RegimeAttribution.CountExits | src/gemini_trading/strategy/evaluation.py:197-201 | the loop counts exits per state, or stops exactly when one was not observed |
| RegimeAttribution.AttributeRegimeMetrics | src/gemini_trading/strategy/evaluation.py:167-217 | the attribution succeeds if and only if observations align, are unique, trades derive and exits were observed; it returns one row per state |
| RegimeAttribution.FinishedRunsAreAttributed | src/gemini_trading/strategy/evaluation.py:167-201 | for every run whose observations cover its candles, series and observations align, the finalized orders derive trades and every exit was observed, so neither refusal can occur |
| RegimeAttribution.ReturnsAreConserved | src/gemini_trading/strategy/evaluation.py:189-195 | per-state net returns add up to (last equity - initial) / initial, for any assignment of states |
| RegimeAttribution.PeriodsAreConserved | src/gemini_trading/strategy/evaluation.py:189-195 | period counts add up to the length of the series |
| RegimeAttribution.TradesAreConserved | src/gemini_trading/strategy/evaluation.py:197-201 | trade counts add up to the number of completed trades |
| RegimeAttribution.ExposureIsAFraction | src/gemini_trading/strategy/evaluation.py:203-217 | every exposure fraction is in [0, 1]; what it counts is `RegimeAttribution.CountsAreOfCandles` |
| RegimeAttribution.CountsAreOfCandles | src/gemini_trading/strategy/evaluation.py:189-195 | a state's periods are the number of candles observed in it, its exposed ones the number of those that end with a position |
| RegimeAttribution.ExitsAreOfTrades | src/gemini_trading/strategy/evaluation.py:197-201 | a state's trades are the number of trades whose exit candle was observed in it |
| RegimeAttribution.StretchesAreCredited | src/gemini_trading/strategy/evaluation.py:189-195 | any stretch of candles in one state credits its whole change of equity to that state and nothing to the others |
| Regimes.RegimesAre | src/gemini_trading/strategy/regimes.py:50-100 | the four regimes as conditions that do not depend on the order of the rules, disjoint by themselves once the trending floor is above the ranging ceiling |
| RegimeAttribution.DrawdownsAreAttained | src/gemini_trading/strategy/evaluation.py:189-195 | a state's drawdown bounds every drawdown seen in it and is one of them, or zero |
| Features.RowsAreLocal | src/gemini_trading/strategy/features.py:448-565 | all seventy-four features of a row depend on nothing but its forty-three candles |
| FeatureLaws.RowIdentities | src/gemini_trading/strategy/features.py:448-565 | in every eligible row EMA spreads are differences of EMA distances, drawdown and rebound mirror the distances from high and low, body and wicks share the candle and locate the close, and volume proxies and regime values are determined by the columns they combine |
| FeatureLaws.ReturnsAddUp | src/gemini_trading/strategy/features.py:581-587 | for a logarithm, the one-candle returns of a window add up to the lagged return of the row |
| FeatureLaws.AccelerationIs | src/gemini_trading/strategy/features.py:474-476 | for a logarithm, the acceleration is twice the return over three candles less the one over six |
| FeatureLaws.StreakIs | src/gemini_trading/strategy/features.py:652-661 | the streak is the number of trailing values with the sign of the last one, and no more; zero has none |
| FeatureLaws.MedianIsHalfQuantile | src/gemini_trading/strategy/features.py:619-626 | the median is the linear quantile at one half |
| FeatureLaws.AtrIsBaselines | src/gemini_trading/strategy/features.py:590-604 | features and baselines measure the average true range alike |
| FeatureLaws.ZscoreIsBaselines | src/gemini_trading/strategy/features.py:525-532 | for a square root, the feature `close_zscore_24` is the score the mean-reversion baseline trades on |
| FeatureMatrix.ValidateCandles | src/gemini_trading/strategy/features.py:422-445 | the loop accepts exactly the usable sequences |
| FeatureMatrix.SliceRow | src/gemini_trading/strategy/features.py:396-399 | a row computed on a segment's slice is the row of the whole sequence |
| FeatureMatrix.ComputeWindow | src/gemini_trading/strategy/features.py:395-410 | the inner loop computes the rows of one window |
| FeatureMatrix.Compute | src/gemini_trading/strategy/features.py:371-415 | the rows of all segments, if and only if the candles are usable and covered |
| FeatureMatrix.SegmentRowsAre | src/gemini_trading/strategy/features.py:384-410 | the rows are exactly the eligible candles whose forty-three candles lie in one segment, in strictly increasing order |
| FeatureMatrix.MatrixReadsThePast | src/gemini_trading/strategy/features.py:371-415 | the matrix of a candle prefix is exactly the rows of the full matrix below the cut |
| FeatureMatrix.RowsSpanNoOutage | src/gemini_trading/strategy/features.py:371-415 | over a segmented dataset the forty-three candles behind every row are consecutive slots |
| Labels.LabelsAreConservative | src/gemini_trading/strategy/labels.py:191-251 | label fills are no better than the opens, net is no better than gross, and a positive label means the exit open beat the entry open by more than the hurdle |
| RoundTrips.ObservedIffPriced | src/gemini_trading/strategy/labels.py:191-251 | a decision is observed if and only if both opens have a market price, and its fills are those prices on the next candle and the horizon's |
| RoundTrips.LabelsAreTrades | src/gemini_trading/strategy/labels.py:191-251 | whatever quantity is bought and sold at a label's opens, the two fills derive one completed trade with the label's candles, gross and net return, and so the same verdict on the hurdle |
| Labels.SharesSegment | src/gemini_trading/strategy/labels.py:164-176 | comparing three segment numbers decides whether decision and exit share a segment |
| Labels.LabelOne | src/gemini_trading/strategy/labels.py:154-183 | one decision is labelled, skipped or refused exactly as its conditions say |
| Labels.BuildSorted | src/gemini_trading/strategy/labels.py:154-183 | the loop over the sorted decisions succeeds if and only if they strictly increase and each passes, and labels exactly the labelable ones |
| Labels.Build | src/gemini_trading/strategy/labels.py:141-189 | the build succeeds if and only if candles are sound, decisions are distinct and each passes; it then labels exactly the labelable decisions, in order |
| Labels.LabelsReadTwoOpens | src/gemini_trading/strategy/labels.py:191-251 | two histories that agree on the entry open and the exit open give the same observation |
| Labels.LabelsSpanNoOutage | src/gemini_trading/strategy/labels.py:141-189 | over a segmented dataset everything from decision to exit is consecutive slots |
| Labels.SameSegmentIffUnbroken | src/gemini_trading/strategy/labels.py:164-176 | over the segmenter's own output two candles share a segment if and only if no gap lies between them |
| Labels.LabelDataset | src/gemini_trading/strategy/evaluator.py:78-85 | segmenting a dataset and labelling it succeeds if and only if the dataset is segmentable, the decisions are distinct and each is observable; the labels are then exactly the observations of the decisions no gap interrupts before their exit |

## Left out
- Rounding of `Decimal` to 28, 32 or 34 digits: exact reals instead; equalities proved here may fail in the last digit of the program.
- Field-by-field JSON parsing, UTC and finiteness checks, and the formats of digests and commits: long lists of equality tests; the encodings are treated as injective. The one identity format that decides acceptance, that of closure identities, is modelled.
- Exclusions.MatchAndExclude: page identity, decoding and hashing are left out; the rows arrive decoded, normalized and with the digest of their bytes.
- FinalAccess.FinalAccessStore.Authorize: directory permissions, partial writes inside one `write_immutable` and non-crash I/O errors are not modelled.
- EngineTheorems.BooksNeverRaise: stops caused by the strategy, by incomplete candles or by non-cash boundaries remain possible and are listed in `EngineSteps.Permitted`.
- `threshold_events` in `strategy/study_predictions.py` and the intent adapters of the baselines: one-branch code over schedules already covered.
- BacktestEngine.Backtester.constructor: the start-up comparison of experiment manifest, dataset, configuration and strategy identities (`research/engine.py:103-127`) is left out; it is a list of equality tests.
- Closures.CheckManifest: white space is blank, tab, newline and carriage return; blank closure identities, reasons and governance references are not refused.
- ProspectiveSeal.SpawnsIffCreatable: the digests and the commit of a request are taken to be well formed.
- EntrySelectivity.BuildEntryThreshold: the two digests of the artifact are left out.
- Feature names, versions and groups of the registry: fixed data.
- Platt fitting, model training, log loss and the bootstrap: floating point or foreign numerics.
- Promotion and qualification gates: fixed lists of threshold comparisons.
- Command line, provider networking, retries, environment policy and the legacy package: input, output and dispatch.
- `calculate_metrics` beyond completed trades (ratios of quantities proved elsewhere).
