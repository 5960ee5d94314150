/** How much of a candle's volume a run may take: one participation budget, shared by both passes over the orders. */
module Liquidity {
  import opened Wrappers
  import opened Domain
  import opened Simulator
  import opened Accounting
  import opened Engine
  import EngineSteps
  import EngineTheorems

  /** The quantity filled on one candle. */
  function FilledAt(fills: seq<Fill>, index: int): real {
    if fills == [] then 0.0
    else
      var last := fills[|fills| - 1];
      FilledAt(fills[..|fills| - 1], index) + if last.candleIndex == index then last.quantity else 0.0
  }

  function Budget(config: Config, candle: Candle): real {
    candle.volume * config.maxVolumeParticipation
  }

  lemma FilledAppends(fills: seq<Fill>, f: Fill, index: int)
    ensures FilledAt(fills + [f], index) == FilledAt(fills, index) + if f.candleIndex == index then f.quantity else 0.0
  {
    assert (fills + [f])[..|fills|] == fills;
  }

  lemma CandidateWithinBudget(
    order: Order, candle: Candle, account: Account, config: Config, consumed: real, price: real)
    requires config.Valid() && price > 0.0 && consumed <= Budget(config, candle)
    ensures consumed + Candidate(order, candle, account, config, consumed, price) <= Budget(config, candle)
  {
    hide Affordable;
  }

  lemma FillAtWithinBudget(order: Order, candle: Candle, account: Account, config: Config, index: int,
                           consumed: real, reference: real, price: real)
    requires config.Valid() && price > 0.0 && consumed <= Budget(config, candle)
    ensures var r := FillAt(order, candle, account, config, index, consumed, reference, price);
            r.Ok? && r.value.Filling? ==> r.value.consumed <= Budget(config, candle)
  {
    hide FloorTo, Candidate, MakeFill, Budget, AvailableQuantity;
    var candidate := Candidate(order, candle, account, config, consumed, price);
    CandidateWithinBudget(order, candle, account, config, consumed, price);
    FloorToBounds(candidate, config.quantityStep);
  }

  /** A fill takes no more than what is left of the budget. */
  lemma FillWithinBudget(
    order: Order, candle: Candle, account: Account, config: Config, index: int, consumed: real,
    reference: Option<real>)
    requires config.Valid() && order.Valid() && consumed <= Budget(config, candle)
    ensures var r := EvaluateOrder(order, candle, account, config, index, consumed, reference);
            r.Ok? && r.value.Filling? ==> r.value.consumed <= Budget(config, candle)
  {
    hide FillAt, Crossed, OnTick, Budget;
    var r := EvaluateOrder(order, candle, account, config, index, consumed, reference);
    if r.Ok? && r.value.Filling? {
      var at := if reference.Some? then reference.value else candle.open;
      FillAtWithinBudget(order, candle, account, config, index, consumed, at, FillPrice(order, at, config).value);
    }
  }

  /** Between two states exactly `to - from` was filled on this candle, and nothing on any other. */
  ghost predicate Fills(s: State, s': State, index: int, from: real, to: real) {
    && FilledAt(s'.fills, index) - FilledAt(s.fills, index) == to - from
    && (forall j :: j != index ==> FilledAt(s'.fills, j) == FilledAt(s.fills, j))
  }

  lemma EvaluateOneFills(
    env: Env, s: State, id: OrderId, index: int, candle: Candle, consumed: real, reference: Option<real>)
    requires consumed <= Budget(env.config, candle)
    ensures var p := EvaluateOne(env, s, id, index, candle, consumed, reference);
            p.failure.None? ==>
                Fills(s, p.state, index, consumed, p.consumed) && p.consumed <= Budget(env.config, candle)
  {
    hide EvaluateOrder, ApplyFill, Settled, FilledAt, Budget;
    if id in s.orders && s.orders[id].Active() && s.orders[id].Valid() {
      var order := s.orders[id];
      var r := EvaluateOrder(order, candle, s.account, env.config, index, consumed, reference);
      if r.Ok? && r.value.Filling? {
        FillIsBounded(order, candle, s.account, env.config, index, consumed, reference);
        assert FillOutcome(order, s.account, env.config, index, consumed, r.value);
        FillWithinBudget(order, candle, s.account, env.config, index, consumed, reference);
        forall j
          ensures FilledAt(s.fills + [r.value.fill], j)
                  == FilledAt(s.fills, j) + if index == j then r.value.fill.quantity else 0.0
        {
          FilledAppends(s.fills, r.value.fill, j);
        }
      }
    }
  }

  lemma {:induction false} EvaluateAllFills(
    env: Env, s: State, ids: seq<OrderId>, index: int, candle: Candle, consumed: real, reference: Option<real>)
    requires consumed <= Budget(env.config, candle)
    ensures var p := EvaluateAll(env, s, ids, index, candle, consumed, reference);
            p.failure.None? ==>
                Fills(s, p.state, index, consumed, p.consumed) && p.consumed <= Budget(env.config, candle)
    decreases |ids|
  {
    hide EvaluateOne, FilledAt, Budget;
    if ids != [] {
      EvaluateOneFills(env, s, ids[0], index, candle, consumed, reference);
      var first := EvaluateOne(env, s, ids[0], index, candle, consumed, reference);
      if first.failure.None? {
        EvaluateAllFills(env, first.state, ids[1..], index, candle, first.consumed, reference);
      }
    }
  }

  lemma {:induction false} AcceptFromKeepsFills(
    env: Env, s: State, intents: seq<ValidIntent>, index: int, decision: int, sequence: int,
    activeSides: set<Side>, accepted: seq<OrderId>)
    ensures AcceptFrom(env, s, intents, index, decision, sequence, activeSides, accepted).state.fills == s.fills
    decreases |intents|
  {
    if intents != [] {
      hide RejectionFor, NewOrder;
      var intent := intents[0];
      var reason := RejectionFor(env, s, intent, activeSides);
      if reason.Some? {
        var rejected := Reject(s, index, decision, sequence, intent, reason.value);
        AcceptFromKeepsFills(env, rejected, intents[1..], index, decision, sequence + 1, activeSides, accepted);
      } else {
        var order := NewOrder(env, intent, index, decision, sequence);
        if order.orderId !in s.orders {
          AcceptFromKeepsFills(env, AddOrder(s, order), intents[1..], index, decision, sequence + 1,
              activeSides + {intent.side}, accepted + [order.orderId]);
        }
      }
    }
  }

  lemma AcceptKeepsFills(env: Env, s: State, intents: seq<ValidIntent>, index: int, decision: int)
    ensures AcceptIntents(env, s, intents, index, decision).state.fills == s.fills
  {
    AcceptFromKeepsFills(env, s, intents, index, decision, 1, ActiveSides(s), []);
    EngineSteps.RejectAllOnlyRecords(s, intents, index, decision, 1);
  }

  /** One candle: what both passes fill together fits in its budget. */
  lemma CandleFills(env: Env, strategy: Strategy, s: State, contexts: seq<Context>, index: int, candle: Candle)
    requires Budget(env.config, candle) >= 0.0
    ensures var o := ProcessCandle(env, strategy, s, contexts, index, candle).outcome;
            o.failure.None? ==>
                exists taken :: Fills(s, o.state, index, 0.0, taken) && taken <= Budget(env.config, candle)
  {
    hide EvaluateAll, AcceptIntents, CheckCandle, ContextOf, FilledAt, Budget, SortIds, ActiveIds, KeepEligible,
         MarkToMarket;
    var o := ProcessCandle(env, strategy, s, contexts, index, candle).outcome;
    if o.failure.None? {
      var entered := EnterSegment(env, s, index);
      EvaluateAllFills(env, entered, SortIds(ActiveIds(entered)), index, candle, 0.0, None);
      var before := BeforeDecision(env, s, index, candle);
      assert Fills(s, before.state, index, 0.0, before.consumed);
      var intents := strategy(contexts + [ContextOf(before.state, index, candle)]).value;
      var decided := Decide(before.state, index, candle, intents);
      AcceptKeepsFills(env, decided, intents, index, |decided.decisions|);
      var a := AcceptIntents(env, decided, intents, index, |decided.decisions|);
      if env.config.timing.NextCandle? {
        assert Fills(s, o.state, index, 0.0, before.consumed);
      } else {
        var ids := SortIds(KeepEligible(a.state.orders, a.accepted, index));
        EvaluateAllFills(env, a.state, ids, index, candle, before.consumed, Some(candle.close));
        var pass := EvaluateAll(env, a.state, ids, index, candle, before.consumed, Some(candle.close));
        assert Fills(s, o.state, index, 0.0, pass.consumed);
      }
    }
  }

  lemma BudgetIsNonNegative(config: ValidConfig, candle: Candle)
    requires candle.Valid()
    ensures Budget(config, candle) >= 0.0
  {
    MulNonNegative(candle.volume, config.maxVolumeParticipation);
  }

  /**
   In every run, on every candle, all fills together stay within the candle's participation budget; later
   candles have none yet.
   */
  lemma {:induction false} RunsRespectVolume(env: Env, strategy: Strategy, k: nat, s: State, index: nat)
    requires EngineTheorems.Reached(env, strategy, k, s) && index < |env.candles|
    ensures FilledAt(s.fills, index) <= Budget(env.config, env.candles[index])
    ensures index >= k ==> FilledAt(s.fills, index) == 0.0
    decreases k
  {
    hide ProcessCandle, Start;
    BudgetIsNonNegative(env.config, env.candles[index]);
    if k == 0 {
      assert Start(env).fills == [] by { NothingFilledYet(env); }
    } else {
      var before := Run(env, strategy, k - 1);
      assert before.outcome.failure.None?;
      RunsRespectVolume(env, strategy, k - 1, before.outcome.state, index);
      RunsRespectVolume(env, strategy, k - 1, before.outcome.state, k - 1);
      BudgetIsNonNegative(env.config, env.candles[k - 1]);
      CandleFills(env, strategy, before.outcome.state, before.contexts, k - 1, env.candles[k - 1]);
      hide FilledAt, Budget;
      var taken :| Fills(before.outcome.state, s, k - 1, 0.0, taken) && taken <= Budget(env.config, env.candles[k - 1]);
    }
  }

  lemma NothingFilledYet(env: Env)
    ensures Start(env).fills == []
  {
  }
}
