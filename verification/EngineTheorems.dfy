/** What the invariant means for the evidence of a run: reconciliation, trades, timing and segments. */
module EngineTheorems {
  import opened Wrappers
  import opened Domain
  import opened Simulator
  import opened Accounting
  import opened Trades
  import opened Engine
  import opened EngineInvariant
  import opened Sorting
  import opened EngineSteps

  /** `s` is the state a strategy's run over the first `k` candles reaches without failing. */
  ghost predicate Reached(env: Env, strategy: Strategy, k: nat, s: State) {
    && ValidEnv(env)
    && k <= |env.candles|
    && Run(env, strategy, k).outcome == Outcome(s, None)
  }

  lemma ReachedKeeps(env: Env, strategy: Strategy, k: nat, s: State)
    requires Reached(env, strategy, k, s)
    ensures Current(env, s, k - 1) && Inv(env, s, k - 1, {})
  {
    hide Run, Inv, ProcessCandle;
    RunKeeps(env, strategy, k);
  }

  // ---------------------------------------------------------------- accounting

  lemma FillIdentitiesDiffer(env: Env, s: State, now: int)
    requires FillsInOrder(env, s, now) && Ledgered(env, s)
    ensures DistinctFills(s.ledger) && IncreasingSequences(s.ledger)
  {
    forall i, j | 0 <= i < j < |s.ledger| ensures s.ledger[i].fillId != s.ledger[j].fillId {
      assert !SameFill(s.fills[i], s.fills[j]);
      assert FillKnown(env, s, s.fills[i], now) && FillKnown(env, s, s.fills[j], now);
    }
  }

  lemma InvariantReconciles(env: Env, s: State, now: int, a: Account)
    requires env.initialCash > 0.0 && Inv(env, s, now, {}) && Balanced(env.initialCash, a)
    requires a == s.account.(equity := a.equity, peak := a.peak, drawdown := a.drawdown)
    ensures Reconciles(env.initialCash, a, s.ledger)
  {
    FillIdentitiesDiffer(env, s, now);
  }

  lemma {:induction false} CancelActiveOnlyCancels(orders: map<OrderId, Order>, ids: seq<OrderId>)
    ensures var r := CancelActive(orders, ids);
            && r.Keys == orders.Keys
            && forall id :: id in orders ==>
                 r[id] == if id in ids && orders[id].Active() then orders[id].(status := Cancelled) else orders[id]
  {
    if ids != [] {
      var id := ids[0];
      assert ids == [id] + ids[1..];
      CancelActiveOnlyCancels(
        if id in orders && orders[id].Active() then orders[id := orders[id].(status := Cancelled)]
            else orders, ids[1..]);
    }
  }

  lemma ClosingMarks(env: Env, s: State, now: int)
    requires Balanced(env.initialCash, s.account)
    requires s.lastCandle.Some? ==> s.lastCandle.value.close > 0.0
    ensures Closing(s).failure.None?
    ensures var c := Closing(s).state;
            && c == s.(account := c.account, orders := CancelActive(s.orders, s.orderIds), series := c.series)
            && |c.series| == |s.series|
            && Balanced(env.initialCash, c.account)
            && c.account
               == s.account.(equity := c.account.equity, peak := c.account.peak, drawdown := c.account.drawdown)
  {
    if s.lastCandle.Some? {
      MarkKeepsBalance(env.initialCash, s.account, s.lastCandle.value.close);
    }
  }

  lemma NothingStaysActive(s: State)
    requires forall id :: id in s.orders ==> id in s.orderIds
    ensures forall id :: id in CancelActive(s.orders, s.orderIds) ==> !CancelActive(s.orders, s.orderIds)[id].Active()
  {
    CancelActiveOnlyCancels(s.orders, s.orderIds);
  }

  /** Every run that gets through its candles closes flat of orders and reconciles, whatever was traded. */
  lemma EveryRunReconciles(env: Env, strategy: Strategy, k: nat, s: State)
    requires Reached(env, strategy, k, s)
    ensures Closing(s).failure.None?
    ensures Reconciles(env.initialCash, Closing(s).state.account, s.ledger)
    ensures Closing(s).state.ledger == s.ledger && Closing(s).state.fills == s.fills
    ensures forall id :: id in Closing(s).state.orders ==> !Closing(s).state.orders[id].Active()
    ensures |Closing(s).state.series| == k
  {
    hide Run, Balanced, Ledgered, FillsInOrder, Clock, Derived, Reconciles;
    ReachedKeeps(env, strategy, k, s);
    ClosingMarks(env, s, k - 1);
    NothingStaysActive(s);
    InvariantReconciles(env, s, k - 1, Closing(s).state.account);
  }

  /** No configuration with fees up to 100% lets the books raise, on any dataset, under any strategy. */
  lemma BooksNeverRaise(env: Env, strategy: Strategy, k: nat)
    requires ValidEnv(env) && FeesWithinProceeds(env.config) && k <= |env.candles|
    ensures var o := Run(env, strategy, k).outcome;
            o.failure.Some? ==> !o.failure.value.Books? && !o.failure.value.DuplicateOrderIdentity?
  {
    hide Run, Inv, Current;
    RunKeeps(env, strategy, k);
  }

  /** Cash plus cost basis is what was paid in plus what was realized, in every reachable state. */
  lemma CashAndCostAreConserved(env: Env, strategy: Strategy, k: nat, s: State)
    requires Reached(env, strategy, k, s)
    ensures s.account.cash + s.account.costBasis == env.initialCash + s.account.realizedPnl
    ensures s.account.averagePrice * s.account.position == s.account.costBasis
    ensures s.account.position == 0.0 ==> s.account.cash == env.initialCash + s.account.realizedPnl
  {
    hide Run, Book, Ledgered, FillsInOrder, Clock, Derived;
    ReachedKeeps(env, strategy, k, s);
  }

  /** An active sell never asks for more than is owned, so the simulator's position limit never binds. */
  lemma SellsNeverExceedPosition(env: Env, strategy: Strategy, k: nat, s: State, id: OrderId, candle: Candle,
                                 index: int, consumed: real, reference: Option<real>)
    requires Reached(env, strategy, k, s) && id in s.orders && s.orders[id].Active() && s.orders[id].side.SellToClose?
    ensures s.orders[id].Valid() && s.orders[id].Remaining() <= s.account.position
    ensures EvaluateOrder(s.orders[id], candle, s.account, env.config, index, consumed, reference)
            == EvaluateOrder(
                 s.orders[id], candle, s.account.(position := s.orders[id].Remaining()), env.config, index, consumed,
                 reference)
    ensures EvaluateOrder(s.orders[id], candle, s.account, env.config, index, consumed, reference)
            != Ok(NoFill(InsufficientPosition))
  {
    hide Run, Balanced, Ledgered, Derived, Clock, FillsInOrder, EvaluateOrder;
    ReachedKeeps(env, strategy, k, s);
    assert Known(env, s, id);
    PositionLimitIsIdle(s.orders[id], candle, s.account, env.config, index, consumed, reference);
  }

  lemma PositionLimitIsIdle(order: Order, candle: Candle, account: Account, config: Config, index: int,
                            consumed: real, reference: Option<real>)
    requires config.Valid() && order.Valid() && order.side.SellToClose? && order.Active()
    requires order.Remaining() <= account.position
    ensures EvaluateOrder(order, candle, account, config, index, consumed, reference)
            == EvaluateOrder(order, candle, account.(position := order.Remaining()), config, index, consumed, reference)
    ensures EvaluateOrder(order, candle, account, config, index, consumed, reference)
            != Ok(NoFill(InsufficientPosition))
  {
    hide FloorTo, MakeFill, Affordable;
    var price := FillPrice(order, if reference.Some? then reference.value else candle.open, config);
    if price.Ok? {
      assert Candidate(order, candle, account, config, consumed, price.value)
             == Candidate(order, candle, account.(position := order.Remaining()), config, consumed, price.value)
             == Min(order.Remaining(), AvailableQuantity(candle, config, consumed));
      assert order.Remaining() > 0.0;
    }
  }

  /** Proportional average-cost P&L and flat-to-flat trade P&L, over every reachable fill list. */
  lemma TwoAccountingsAgree(env: Env, strategy: Strategy, k: nat, s: State)
    requires Reached(env, strategy, k, s)
    ensures Derive(s.orders, s.fills).Ok?
    ensures var d := Derive(s.orders, s.fills).value;
            && d.position == s.account.position
            && s.account.realizedPnl - TotalPnl(d.trades) == d.exitProceeds - (d.entryCost - s.account.costBasis)
            && (s.account.position == 0.0 ==> s.account.realizedPnl == TotalPnl(d.trades))
            && AttributedIds(d) == FillIds(s.fills)
    ensures Derive(Closing(s).state.orders, s.fills) == Derive(s.orders, s.fills)
  {
    hide Run, Ledgered, Clock, FillsInOrder, Book;
    ReachedKeeps(env, strategy, k, s);
    ClosingKeepsTrades(env, strategy, k, s);
  }

  /** Cancelling what is open changes no side, so the finalized orders derive the same trades. */
  lemma ClosingKeepsTrades(env: Env, strategy: Strategy, k: nat, s: State)
    requires Reached(env, strategy, k, s)
    ensures Derive(Closing(s).state.orders, s.fills) == Derive(s.orders, s.fills)
  {
    hide Run, Balanced, Ledgered, Clock, Derived;
    ReachedKeeps(env, strategy, k, s);
    CancelActiveOnlyCancels(s.orders, s.orderIds);
    assert Closing(s).state.orders == CancelActive(s.orders, s.orderIds);
    forall i | 0 <= i < |s.fills|
      ensures s.fills[i].orderId in s.orders && s.fills[i].orderId in Closing(s).state.orders
              && s.orders[s.fills[i].orderId].side == Closing(s).state.orders[s.fills[i].orderId].side
    {
      assert FillKnown(env, s, s.fills[i], k - 1);
    }
    DeriveReadsSides(Closing(s).state.orders, s.orders, s.fills);
  }

  /** Every completed trade enters and exits on candles the run has processed. */
  lemma TradesHappenInTheRun(env: Env, strategy: Strategy, k: nat, s: State)
    requires Reached(env, strategy, k, s)
    ensures Derive(s.orders, s.fills).Ok?
    ensures forall i :: 0 <= i < |Derive(s.orders, s.fills).value.trades| ==>
              var t := Derive(s.orders, s.fills).value.trades[i]; 0 <= t.entryIndex <= t.exitIndex < k
  {
    hide Run, Balanced, Ledgered, Clock, Book, Derive;
    ReachedKeeps(env, strategy, k, s);
    forall i | 0 <= i < |s.fills| ensures s.fills[i].candleIndex >= 0 {
      assert FillKnown(env, s, s.fills[i], k - 1);
    }
    TradesHappenOnFills(s.orders, s.fills, 0);
    var trades := Derive(s.orders, s.fills).value.trades;
    forall i | 0 <= i < |trades| ensures trades[i].entryIndex <= trades[i].exitIndex < k {
      assert TradeInSegment(env.boundaries, trades[i], k - 1);
    }
  }

  // ---------------------------------------------------------------- timing

  /** Where and how often an order fills, from its terms alone. */
  lemma FillsRespectOrderTerms(env: Env, strategy: Strategy, k: nat, s: State, i: nat)
    requires Reached(env, strategy, k, s) && i < |s.fills|
    ensures s.fills[i].orderId in s.orders
    ensures var f, o := s.fills[i], s.orders[s.fills[i].orderId];
            && o.eligible <= f.candleIndex <= o.expiresAfter
            && (!o.tif.GTC? ==> f.candleIndex == o.eligible)
            && (o.tif.GTC? ==> f.candleIndex < o.eligible + env.config.maxActiveCandles)
            && (env.config.timing.NextCandle? ==> f.candleIndex >= o.created + 1 + env.config.latencyBars)
            && (env.config.timing.SameCloseDiagnostic? ==> f.candleIndex >= o.created + env.config.latencyBars)
            && o.filled == FilledBy(s.fills, o.orderId)
            && o.filled <= o.requested
    ensures forall j :: 0 <= j < |s.fills| && j != i ==> !SameFill(s.fills[i], s.fills[j])
  {
    hide Run, Balanced, Ledgered, Derived, Clock;
    ReachedKeeps(env, strategy, k, s);
    assert FillKnown(env, s, s.fills[i], k - 1);
    assert Known(env, s, s.fills[i].orderId);
    forall j | 0 <= j < |s.fills| && j != i ensures !SameFill(s.fills[i], s.fills[j]) {
      if j < i { assert !SameFill(s.fills[j], s.fills[i]); }
    }
  }

  /** No order stays open past its lifetime. */
  lemma ActiveOrdersOutliveTheCandle(env: Env, strategy: Strategy, k: nat, s: State, id: OrderId)
    requires Reached(env, strategy, k, s) && id in s.orders && s.orders[id].Active()
    ensures s.orders[id].expiresAfter >= k
    ensures forall other ::
            other in s.orders && s.orders[other].Active() && s.orders[other].side == s.orders[id].side ==> other == id
  {
    hide Run, Balanced, Ledgered, Derived, FillsInOrder;
    ReachedKeeps(env, strategy, k, s);
  }

  // ---------------------------------------------------------------- one evaluation a candle

  lemma EvaluateOneKeepsKeys(
    env: Env, s: State, id: OrderId, index: int, candle: Candle, consumed: real, reference: Option<real>)
    ensures EvaluateOne(env, s, id, index, candle, consumed, reference).state.orders.Keys == s.orders.Keys
  {
    hide EvaluateOrder, ApplyFill, Settled;
  }

  lemma {:induction false} EvaluateAllKeepsKeys(env: Env, s: State, ids: seq<OrderId>, index: int, candle: Candle,
                                                consumed: real, reference: Option<real>)
    ensures EvaluateAll(env, s, ids, index, candle, consumed, reference).state.orders.Keys == s.orders.Keys
    decreases |ids|
  {
    hide EvaluateOne;
    if ids != [] {
      EvaluateOneKeepsKeys(env, s, ids[0], index, candle, consumed, reference);
      var first := EvaluateOne(env, s, ids[0], index, candle, consumed, reference);
      EvaluateAllKeepsKeys(env, first.state, ids[1..], index, candle, first.consumed, reference);
    }
  }

  /** What is accepted was not in the book before. */
  lemma {:induction false} AcceptedAreNew(
    env: Env, s: State, intents: seq<ValidIntent>, index: int, decision: int, sequence: int,
    activeSides: set<Side>, accepted: seq<OrderId>, id: OrderId)
    requires id in AcceptFrom(env, s, intents, index, decision, sequence, activeSides, accepted).accepted
    ensures id in accepted || id !in s.orders
    decreases |intents|
  {
    if intents != [] {
      hide RejectionFor, NewOrder;
      var intent := intents[0];
      var reason := RejectionFor(env, s, intent, activeSides);
      var order := NewOrder(env, intent, index, decision, sequence);
      if reason.Some? {
        AcceptedAreNew(env, Reject(s, index, decision, sequence, intent, reason.value), intents[1..], index, decision,
                       sequence + 1, activeSides, accepted, id);
      } else if order.orderId !in s.orders {
        AcceptedAreNew(env, AddOrder(s, order), intents[1..], index, decision, sequence + 1,
            activeSides + {intent.side},
                       accepted + [order.orderId], id);
      }
    }
  }

  lemma BeforeDecisionKeepsKeys(env: Env, s: State, index: int, candle: Candle)
    ensures BeforeDecision(env, s, index, candle).state.orders.Keys == s.orders.Keys
  {
    hide EvaluateAll, MarkToMarket, SortIds, ActiveIds;
    var entered := EnterSegment(env, s, index);
    EvaluateAllKeepsKeys(env, entered, SortIds(ActiveIds(entered)), index, candle, 0.0, None);
  }

  /** The orders evaluated before the decision on a candle, and those accepted on it that the second pass evaluates. */
  function FirstPass(env: Env, s: State, index: int): seq<OrderId> {
    SortIds(ActiveIds(EnterSegment(env, s, index)))
  }

  function SecondPass(a: Acceptance, index: int): seq<OrderId> {
    SortIds(KeepEligible(a.state.orders, a.accepted, index))
  }

  function Accepted(env: Env, s: State, index: int, candle: Candle, intents: seq<ValidIntent>): Acceptance {
    var decided := Decide(BeforeDecision(env, s, index, candle).state, index, candle, intents);
    AcceptIntents(env, decided, intents, index, |decided.decisions|)
  }

  /** In every run each pass visits an order once, and no order is in both passes over one candle. */
  lemma NoOrderIsEvaluatedTwice(env: Env, strategy: Strategy, k: nat, s: State, intents: seq<ValidIntent>)
    requires Reached(env, strategy, k, s) && k < |env.candles|
    requires CheckCandle(env, s, k, env.candles[k]).None? && BeforeDecision(env, s, k, env.candles[k]).failure.None?
    ensures var first, second := FirstPass(env, s, k), SecondPass(Accepted(env, s, k, env.candles[k], intents), k);
            NoDup(first) && NoDup(second) && forall id :: id in first ==> id !in second
  {
    hide Run, Inv, BeforeDecision, AcceptIntents, KeepEligible, SortIds, ActiveIds;
    ReachedKeeps(env, strategy, k, s);
    FirstPassIsBook(env, s, k);
    SecondPassIsNew(env, s, k, env.candles[k], intents);
  }

  lemma FirstPassIsBook(env: Env, s: State, index: int)
    requires Inv(env, s, index - 1, {})
    ensures NoDup(FirstPass(env, s, index)) && forall id :: id in FirstPass(env, s, index) ==> id in s.orders
  {
    hide Balanced, Ledgered, FillsInOrder, Clock, Derived;
    ActiveIdsKeeps(EnterSegment(env, s, index));
  }

  lemma SecondPassIsNew(env: Env, s: State, index: int, candle: Candle, intents: seq<ValidIntent>)
    requires ValidEnv(env) && Current(env, s, index - 1) && 0 <= index < |env.candles| && candle == env.candles[index]
    requires CheckCandle(env, s, index, candle).None? && BeforeDecision(env, s, index, candle).failure.None?
    ensures NoDup(SecondPass(Accepted(env, s, index, candle, intents), index))
    ensures forall id :: id in SecondPass(Accepted(env, s, index, candle, intents), index) ==> id !in s.orders
  {
    hide Inv, BeforeDecision, NonCash, KeepEligible, SortIds, RejectAll, AcceptFrom;
    var before := BeforeDecision(env, s, index, candle);
    BeforeDecisionKeeps(env, s, index, candle);
    BeforeDecisionKeepsKeys(env, s, index, candle);
    var decided := Decide(before.state, index, candle, intents);
    var a := Accepted(env, s, index, candle, intents);
    AcceptedOnce(env, before.state, index, candle, intents);
    KeepEligibleKeeps(a.state.orders, a.accepted, index);
    SortKeeps(KeepEligible(a.state.orders, a.accepted, index));
    forall id | id in a.accepted ensures id !in s.orders {
      AcceptedAreNew(env, decided, intents, index, |decided.decisions|, 1, ActiveSides(decided), [], id);
    }
  }

  lemma AcceptedOnce(env: Env, s: State, index: int, candle: Candle, intents: seq<ValidIntent>)
    requires ValidEnv(env) && Inv(env, s, index, {}) && 0 <= index && |s.decisions| == index
    ensures var decided := Decide(s, index, candle, intents);
            NoDup(AcceptIntents(env, decided, intents, index, |decided.decisions|).accepted)
  {
    hide AcceptIntents, Balanced, Ledgered, FillsInOrder, Clock, Derived;
    var decided := Decide(s, index, candle, intents);
    forall id | id in decided.orders ensures decided.orders[id].decisionSequence < |decided.decisions| {
      assert Known(env, s, id);
    }
    BookkeepingKeeps(env, s, decided, index, {});
    AcceptKeeps(env, decided, intents, index);
  }

  // ---------------------------------------------------------------- segments

  /** One more than the number of boundaries at or before a candle: the engine's own segment count. */
  function SegmentCount(boundaries: set<int>, index: int): nat {
    1 + |set b | b in boundaries && b <= index|
  }

  lemma SameSegmentSameCount(boundaries: set<int>, from: int, to: int)
    requires from <= to
    ensures SameSegment(boundaries, from, to) <==> SegmentCount(boundaries, from) == SegmentCount(boundaries, to)
  {
    var low := set b | b in boundaries && b <= from;
    var high := set b | b in boundaries && b <= to;
    assert low <= high;
    if SameSegment(boundaries, from, to) {
      assert low == high;
    } else {
      var b :| b in boundaries && from < b <= to;
      ProperSubsetIsSmaller(low, high, b);
    }
  }

  lemma ProperSubsetIsSmaller(low: set<int>, high: set<int>, b: int)
    requires low <= high && b in high && b !in low
    ensures |low| < |high|
  {
    var rest := high - low;
    assert high == low + rest && b in rest;
    assert |high| == |low| + |rest|;
  }

  /** No completed trade and no order spans a segment boundary. */
  lemma NothingSpansASegment(env: Env, strategy: Strategy, k: nat, s: State)
    requires Reached(env, strategy, k, s)
    ensures Derive(s.orders, s.fills).Ok?
    ensures forall i :: 0 <= i < |Derive(s.orders, s.fills).value.trades| ==>
              var t := Derive(s.orders, s.fills).value.trades[i];
              t.entryIndex <= t.exitIndex
              && SegmentCount(env.boundaries, t.entryIndex) == SegmentCount(env.boundaries, t.exitIndex)
    ensures forall i :: 0 <= i < |s.fills| ==>
              && s.fills[i].orderId in s.orders
              && SegmentCount(env.boundaries, s.orders[s.fills[i].orderId].created)
                 == SegmentCount(env.boundaries, s.fills[i].candleIndex)
    ensures forall id :: id in s.orders && s.orders[id].Active() ==>
              SegmentCount(env.boundaries, s.orders[id].created) == SegmentCount(env.boundaries, k - 1)
  {
    hide Run, Balanced, Ledgered;
    ReachedKeeps(env, strategy, k, s);
    var d := Derive(s.orders, s.fills).value;
    forall i | 0 <= i < |d.trades|
      ensures d.trades[i].entryIndex <= d.trades[i].exitIndex
      ensures SegmentCount(env.boundaries, d.trades[i].entryIndex)
              == SegmentCount(env.boundaries, d.trades[i].exitIndex)
    {
      assert TradeInSegment(env.boundaries, d.trades[i], k - 1);
      SameSegmentSameCount(env.boundaries, d.trades[i].entryIndex, d.trades[i].exitIndex);
    }
    forall i | 0 <= i < |s.fills|
      ensures s.fills[i].orderId in s.orders
      ensures SegmentCount(env.boundaries, s.orders[s.fills[i].orderId].created)
              == SegmentCount(env.boundaries, s.fills[i].candleIndex)
    {
      assert FillKnown(env, s, s.fills[i], k - 1);
      assert Known(env, s, s.fills[i].orderId);
      SameSegmentSameCount(env.boundaries, s.orders[s.fills[i].orderId].created, s.fills[i].candleIndex);
    }
    forall id | id in s.orders && s.orders[id].Active()
      ensures SegmentCount(env.boundaries, s.orders[id].created) == SegmentCount(env.boundaries, k - 1)
    {
      SameSegmentSameCount(env.boundaries, s.orders[id].created, k - 1);
    }
  }
}
