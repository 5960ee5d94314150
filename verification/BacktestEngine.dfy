/** The engine object itself: fields updated in place, each method proved against the state machine. */
module BacktestEngine {
  import opened Wrappers
  import opened Domain
  import opened Simulator
  import opened Accounting
  import opened Engine
  import EngineInvariant
  import EngineSteps
  import EngineTheorems

  class Backtester {
    const env: Env
    const strategy: Strategy

    var account: Account
    var decisions: seq<Decision>
    var orders: map<OrderId, Order>
    var orderIds: seq<OrderId>
    var fills: seq<Fill>
    var ledger: seq<LedgerEntry>
    var series: seq<Account>
    var rejections: seq<Rejection>
    var boundaryRecords: seq<BoundaryRecord>
    var lastIndex: int
    var lastCandle: Option<Candle>
    var finalized: bool
    var contexts: seq<Context>

    function Now(): State
      reads this
    {
      State(account, decisions, orders, orderIds, fills, ledger, series, rejections, boundaryRecords, lastIndex,
          lastCandle, finalized)
    }

    constructor (env: Env, strategy: Strategy)
      ensures this.env == env && this.strategy == strategy
      ensures Now() == Start(env) && contexts == []
    {
      this.env, this.strategy := env, strategy;
      account := InitialAccount(env.initialCash);
      decisions, orders, orderIds, fills, ledger, series := [], map[], [], [], [], [];
      rejections, boundaryRecords, contexts := [], [], [];
      lastIndex, lastCandle, finalized := -1, None, false;
    }

    /** The loop body of `_evaluate_orders` for one order. */
    method Evaluate(id: OrderId, index: int, candle: Candle, start: real, reference: Option<real>)
      returns (consumed: real, failure: Option<Failure>)
      modifies this
      ensures Pass(Now(), consumed, failure) == EvaluateOne(env, old(Now()), id, index, candle, start, reference)
      ensures contexts == old(contexts)
    {
      hide EvaluateOrder, ApplyFill;
      consumed := start;
      if id !in orders || !orders[id].Active() { return consumed, None; }
      var order := orders[id];
      if !order.Valid() { return consumed, Some(Simulation(BadOrder)); }
      var evaluation := EvaluateOrder(order, candle, account, env.config, index, consumed, reference);
      if evaluation.Err? { return consumed, Some(Simulation(evaluation.error)); }
      var updated := order;
      if evaluation.value.Filling? {
        consumed := evaluation.value.consumed;
        var applied := ApplyFill(account, order, evaluation.value.fill, |ledger| + 1);
        if applied.Err? { return consumed, Some(Books(applied.error)); }
        account := applied.value.0;
        fills := fills + [evaluation.value.fill];
        ledger := ledger + [applied.value.1];
        updated := evaluation.value.order;
      }
      if updated.Active() && index >= updated.eligible {
        if updated.tif.IOC? || updated.tif.BAR? {
          updated := updated.(status := Cancelled);
        } else if index >= updated.expiresAfter {
          updated := updated.(status := Expired);
        }
      }
      assert updated == Settled(if evaluation.value.Filling? then evaluation.value.order else order, index);
      hide Settled, Order.Active, Order.Valid;
      orders := orders[id := updated];
      failure := None;
      ghost var recorded :=
        if evaluation.value.Filling? then old(orders)[id := evaluation.value.order] else old(orders);
      assert recorded[id := updated] == orders;
    }

    method EvaluateOrders(ids: seq<OrderId>, index: int, candle: Candle, start: real, reference: Option<real>)
      returns (consumed: real, failure: Option<Failure>)
      modifies this
      ensures Pass(Now(), consumed, failure)
              == EvaluateAll(env, old(Now()), SortIds(ids), index, candle, start, reference)
      ensures contexts == old(contexts)
    {
      hide EvaluateOne, SortIds;
      consumed := start;
      var sorted := SortIds(ids);
      for i := 0 to |sorted|
        invariant EvaluateAll(env, Now(), sorted[i..], index, candle, consumed, reference)
                  == EvaluateAll(env, old(Now()), sorted, index, candle, start, reference)
        invariant contexts == old(contexts)
      {
        assert sorted[i..][1..] == sorted[i + 1..];
        consumed, failure := Evaluate(sorted[i], index, candle, consumed, reference);
        if failure.Some? { return; }
      }
      failure := None;
    }

    method RecordRejection(index: int, decision: int, sequence: int, intent: ValidIntent, reason: RejectionReason)
      modifies this`rejections
      ensures Now() == Reject(old(Now()), index, decision, sequence, intent, reason)
    {
      rejections := rejections + [Rejection(index, decision, sequence, intent.side, intent.orderType, reason)];
    }

    method Accept(intents: seq<ValidIntent>, index: int, decision: int)
      returns (accepted: seq<OrderId>, failure: Option<Failure>)
      modifies this
      ensures Acceptance(Now(), accepted, failure) == AcceptIntents(env, old(Now()), intents, index, decision)
      ensures contexts == old(contexts)
    {
      accepted := [];
      if Conflict(intents) {
        for i := 0 to |intents|
          invariant RejectAll(Now(), intents[i..], index, decision, i + 1)
                    == RejectAll(old(Now()), intents, index, decision, 1)
          invariant contexts == old(contexts)
        {
          assert intents[i..][1..] == intents[i + 1..];
          RecordRejection(index, decision, i + 1, intents[i], ConflictingIntents);
        }
        return [], None;
      }
      var activeSides := ActiveSides(Now());
      for i := 0 to |intents|
        invariant AcceptFrom(env, Now(), intents[i..], index, decision, i + 1, activeSides, accepted)
                  == AcceptFrom(env, old(Now()), intents, index, decision, 1, ActiveSides(old(Now())), [])
        invariant contexts == old(contexts)
      {
        var intent := intents[i];
        assert intents[i..][1..] == intents[i + 1..];
        var reason := RejectionFor(env, Now(), intent, activeSides);
        if reason.Some? {
          RecordRejection(index, decision, i + 1, intent, reason.value);
          continue;
        }
        var order := NewOrder(env, intent, index, decision, i + 1);
        if order.orderId in orders { return accepted, Some(DuplicateOrderIdentity); }
        orders := orders[order.orderId := order];
        orderIds := orderIds + [order.orderId];
        accepted := accepted + [order.orderId];
        activeSides := activeSides + {intent.side};
      }
      failure := None;
    }

    method MarkAccount(candle: Candle) returns (failure: Option<Failure>)
      modifies this`account
      ensures Outcome(Now(), failure) == Mark(old(Now()), candle)
    {
      var marked := MarkToMarket(account, candle.close);
      if marked.Err? { return Some(Books(marked.error)); }
      account := marked.value;
      return None;
    }

    /** The part of `process_candle` before the strategy is asked. */
    method Open(index: int, candle: Candle) returns (consumed: real, failure: Option<Failure>)
      modifies this
      ensures Pass(Now(), consumed, failure) == BeforeDecision(env, old(Now()), index, candle)
      ensures contexts == old(contexts)
    {
      hide EvaluateAll, MarkToMarket, ActiveIds, SortIds;
      if index in env.boundaries {
        boundaryRecords := boundaryRecords + [BoundaryRecord(index, 1 + |CrossedBoundaries(env, index)|)];
      }
      consumed, failure := EvaluateOrders(ActiveIds(Now()), index, candle, 0.0, None);
      if failure.Some? { return; }
      failure := MarkAccount(candle);
    }

    /** The part of `process_candle` after the strategy has answered. */
    method Settle(index: int, candle: Candle, start: real, intents: seq<ValidIntent>) returns (failure: Option<Failure>)
      modifies this
      ensures Outcome(Now(), failure) == AfterDecision(env, old(Now()), index, candle, start, intents)
      ensures contexts == old(contexts)
    {
      hide EvaluateAll, AcceptIntents, MarkToMarket, KeepEligible, SortIds, Order.Valid, Order.Active;
      decisions := decisions + [Decision(|decisions| + 1, index, candle.openTime, intents)];
      var accepted;
      accepted, failure := Accept(intents, index, |decisions|);
      if failure.Some? { return; }
      if env.config.timing.SameCloseDiagnostic? {
        var consumed;
        consumed, failure := EvaluateOrders(
          KeepEligible(orders, accepted, index), index, candle, start, Some(candle.close));
        if failure.Some? { return; }
        failure := MarkAccount(candle);
        if failure.Some? { return; }
      }
      series := series + [account];
      lastIndex, lastCandle := index, Some(candle);
      failure := None;
    }

    /** `process_candle`: on failure the partial effects stay, exactly as after the source's exception. */
    method Process(index: int, candle: Candle) returns (failure: Option<Failure>)
      modifies this
      ensures Trace(Outcome(Now(), failure), contexts)
              == ProcessCandle(env, strategy, old(Now()), old(contexts), index, candle)
    {
      hide BeforeDecision, AfterDecision, CheckCandle, ContextOf;
      var refused := CheckCandle(env, Now(), index, candle);
      if refused.Some? { return Some(Chronology(refused.value)); }
      var consumed;
      consumed, failure := Open(index, candle);
      if failure.Some? { return; }
      contexts := contexts + [ContextOf(Now(), index, candle)];
      var answer := strategy(contexts);
      if answer.None? { return Some(StrategyContract); }
      failure := Settle(index, candle, consumed, answer.value);
    }

    /** `finalize`: idempotent; raises exactly when marking fails or the ledger does not reconcile. */
    method Finalize() returns (failure: Option<Failure>)
      modifies this
      ensures old(finalized) ==> failure.None? && Now() == old(Now())
      ensures !old(finalized) && Closing(old(Now())).failure.Some? ==>
                failure == Closing(old(Now())).failure && !finalized
      ensures !old(finalized) && Closing(old(Now())).failure.None? ==>
                && (failure.None? <==> Reconciles(env.initialCash, Closing(old(Now())).state.account, ledger))
                && Now() == Closing(old(Now())).state.(finalized := failure.None?)
    {
      hide Reconciles, MarkToMarket, Order.Valid;
      if finalized { return None; }
      for i := 0 to |orderIds|
        invariant Now() == old(Now()).(orders := orders)
        invariant CancelActive(orders, orderIds[i..]) == CancelActive(old(orders), orderIds)
      {
        var id := orderIds[i];
        assert orderIds[i..][1..] == orderIds[i + 1..];
        if id in orders && orders[id].Active() {
          orders := orders[id := orders[id].(status := Cancelled)];
        }
      }
      if lastCandle.Some? {
        failure := MarkAccount(lastCandle.value);
        if failure.Some? { return; }
        if series != [] {
          series := series[|series| - 1 := account];
        }
      }
      assert Now() == Closing(old(Now())).state;
      var error := VerifyReconciliation(env.initialCash, account, ledger);
      if error.Some? { return Some(Books(error.value)); }
      finalized := true;
      return None;
    }
  }

  /** `strategy_evaluation_end_exclusive`: an optional boundary inside the dataset, the whole dataset by default. */
  function EvaluationEnd(boundary: Option<int>, candleCount: nat): Option<nat> {
    match boundary
    case None => Some(candleCount)
    case Some(value) => if value < 1 || value > candleCount then None else Some(value)
  }

  /** `run_backtest`: a verified dataset either stops at a permitted failure or ends reconciled and final. */
  method RunBacktest(env: Env, strategy: Strategy, boundary: Option<int>)
    returns (engine: Backtester, failure: Option<Failure>)
    requires EngineSteps.ValidEnv(env)
    ensures fresh(engine)
    ensures EvaluationEnd(boundary, |env.candles|).None? ==> failure == Some(StrategyContract)
    ensures EvaluationEnd(boundary, |env.candles|).Some? ==>
              var run := Run(env, strategy, EvaluationEnd(boundary, |env.candles|).value).outcome;
              if run.failure.Some? then
                failure == run.failure && engine.Now() == run.state && EngineSteps.Permitted(env.config, failure.value)
              else
                && failure.None?
                && engine.Now() == Closing(run.state).state.(finalized := true)
                && Reconciles(env.initialCash, engine.account, engine.ledger)
  {
    hide ProcessCandle, Closing, Reconciles, EngineSteps.Permitted, EngineInvariant.Inv, Start;
    engine := new Backtester(env, strategy);
    var end := EvaluationEnd(boundary, |env.candles|);
    if end.None? { return engine, Some(StrategyContract); }
    for i := 0 to end.value
      invariant fresh(engine) && engine.env == env && engine.strategy == strategy
      invariant Run(env, strategy, i) == Trace(Outcome(engine.Now(), None), engine.contexts)
    {
      failure := engine.Process(i, env.candles[i]);
      if failure.Some? {
        FailureEndsTheRun(env, strategy, i + 1, end.value);
        EngineSteps.RunKeeps(env, strategy, end.value);
        return;
      }
    }
    ghost var reached := engine.Now();
    EngineSteps.RunKeeps(env, strategy, end.value);
    EngineTheorems.EveryRunReconciles(env, strategy, end.value, reached);
    failure := engine.Finalize();
  }

  lemma {:induction false} FailureEndsTheRun(env: Env, strategy: Strategy, i: nat, k: nat)
    requires i <= k <= |env.candles| && Run(env, strategy, i).outcome.failure.Some?
    ensures Run(env, strategy, k) == Run(env, strategy, i)
    decreases k
  {
    hide ProcessCandle;
    if i < k {
      FailureEndsTheRun(env, strategy, i, k - 1);
    }
  }
}
