/** The status of every order of a run, told by its terms, its filled quantity and the last candle alone. */
module OrderLifecycle {
  import opened Wrappers
  import opened Domain
  import opened Simulator
  import opened Accounting
  import opened Engine
  import Sorting
  import opened EngineInvariant
  import opened EngineSteps
  import opened EngineTheorems
  import opened CandleSteps
  import opened Intake

  /** The status that is left of an order after candle `now`. */
  function StatusAfter(o: Order, now: int): Status {
    if o.filled == o.requested then Filled
    else if now < o.eligible then Accepted
    else if !o.tif.GTC? then Cancelled
    else if now >= o.expiresAfter then Expired
    else if o.filled == 0.0 then Accepted
    else PartiallyFilled
  }

  ghost predicate Lawful(o: Order, now: int) {
    && o.Valid()
    && o.status == StatusAfter(o, now)
    && (now < o.eligible ==> o.filled == 0.0)
  }

  /** Orders still to be evaluated on this candle follow the law of the one before. */
  ghost predicate AllLawful(orders: map<OrderId, Order>, now: int, todo: set<OrderId>) {
    forall id :: id in orders ==> Lawful(orders[id], if id in todo then now - 1 else now)
  }

  lemma ClosedStaysClosed(o: Order, now: int)
    requires Lawful(o, now - 1) && !o.Active()
    ensures Lawful(o, now)
  {
  }

  lemma UnfilledSettles(o: Order, now: int)
    requires Lawful(o, now - 1) && o.Active()
    ensures Lawful(Settled(o, now), now)
  {
  }

  lemma FilledSettles(o: Order, e: Order, now: int)
    requires o.Valid() && e.Valid() && e == o.(filled := e.filled, status := e.status)
    requires (e.status.Filled? || e.status.PartiallyFilled?) && o.eligible <= now
    ensures Lawful(Settled(e, now), now)
  {
  }

  lemma EvaluateOneIsLawful(env: Env, s: State, id: OrderId, now: int, candle: Candle, consumed: real,
                            reference: Option<real>, todo: set<OrderId>)
    requires AllLawful(s.orders, now, todo) && id in todo && id in s.orders
    ensures var p := EvaluateOne(env, s, id, now, candle, consumed, reference);
            p.failure.None? ==> AllLawful(p.state.orders, now, todo - {id})
  {
    var order := s.orders[id];
    var p := EvaluateOne(env, s, id, now, candle, consumed, reference);
    assert Lawful(order, now - 1);
    hide EvaluateOrder, ApplyFill, Lawful;
    if !order.Active() {
      ClosedStaysClosed(order, now);
    } else {
      UnfilledSettles(order, now);
      EvaluatedSettles(order, candle, s.account, env.config, now, consumed, reference);
    }
    assert p.failure.None? ==> forall k :: k in s.orders && k != id ==> p.state.orders[k] == s.orders[k];
  }

  lemma EvaluatedSettles(order: Order, candle: Candle, account: Account, config: Config, now: int, consumed: real,
                         reference: Option<real>)
    requires config.Valid() && Lawful(order, now - 1) && order.Active()
    ensures order.Valid()
    ensures var r := EvaluateOrder(order, candle, account, config, now, consumed, reference);
            r.Ok? && r.value.Filling? ==> Lawful(Settled(r.value.order, now), now)
  {
    hide EvaluateOrder;
    FillIsBounded(order, candle, account, config, now, consumed, reference);
    var r := EvaluateOrder(order, candle, account, config, now, consumed, reference);
    if r.Ok? && r.value.Filling? { FilledSettles(order, r.value.order, now); }
  }

  lemma {:induction false} EvaluateAllIsLawful(
    env: Env, s: State, ids: seq<OrderId>, now: int, candle: Candle, consumed: real, reference: Option<real>,
    todo: set<OrderId>)
    requires AllLawful(s.orders, now, todo) && Ids(ids) <= todo && Ids(ids) <= s.orders.Keys
    requires Sorting.NoDup(ids)
    ensures var p := EvaluateAll(env, s, ids, now, candle, consumed, reference);
            p.failure.None? ==> AllLawful(p.state.orders, now, todo - Ids(ids))
    decreases |ids|
  {
    hide EvaluateOne, AllLawful;
    if ids == [] {
      assert todo - Ids(ids) == todo;
    } else {
      assert ids[0] in Ids(ids);
      EvaluateOneIsLawful(env, s, ids[0], now, candle, consumed, reference, todo);
      EvaluateOneKeepsKeys(env, s, ids[0], now, candle, consumed, reference);
      var p := EvaluateOne(env, s, ids[0], now, candle, consumed, reference);
      if p.failure.None? {
        SplitIds(ids);
        EvaluateAllIsLawful(env, p.state, ids[1..], now, candle, p.consumed, reference, todo - {ids[0]});
        assert todo - {ids[0]} - Ids(ids[1..]) == todo - Ids(ids);
      }
    }
  }

  lemma BeforeDecisionIsLawful(env: Env, s: State, now: int, candle: Candle)
    requires AllLawful(s.orders, now - 1, {}) && Sorting.NoDup(s.orderIds)
    requires forall id :: id in s.orderIds <==> id in s.orders
    ensures var p := BeforeDecision(env, s, now, candle);
            p.failure.None? ==> AllLawful(p.state.orders, now, {})
  {
    var entered := EnterSegment(env, s, now);
    ActiveIdsKeeps(entered);
    var ids := SortIds(ActiveIds(entered));
    var todo := Ids(ids);
    forall id | id in s.orders ensures Lawful(s.orders[id], if id in todo then now - 1 else now) {
      if id !in todo { ClosedStaysClosed(s.orders[id], now); }
    }
    hide EvaluateAll, MarkToMarket, Lawful, ActiveIds, SortIds;
    EvaluateAllIsLawful(env, entered, ids, now, candle, 0.0, None, todo);
    assert todo - Ids(ids) == {};
  }

  /** What acceptance leaves to evaluate on the same candle is its one new order, if its window opens at once. */
  lemma AcceptanceIsLawful(env: Env, s: State, intents: seq<ValidIntent>, now: int, a: Acceptance)
    requires AllLawful(s.orders, now, {}) && Answers(env, s, intents, now, a) && now >= 0 && |s.decisions| >= 1
    ensures AllLawful(a.state.orders, now, AcceptedNow(a.state, a.accepted, now))
    ensures Sorting.NoDup(a.accepted) && forall id :: id in a.accepted ==> id in a.state.orders
    ensures env.config.timing.NextCandle? ==> AcceptedNow(a.state, a.accepted, now) == {}
  {
    hide Admits, Justified, Refusals;
    if a.accepted != [] {
      var id := a.accepted[0];
      assert a.accepted == [id];
      assert KeepEligible(a.state.orders, a.accepted, now)
             == if a.state.orders[id].eligible == now then [id] else [];
    } else {
      assert AcceptedNow(a.state, a.accepted, now) == {};
    }
  }

  lemma SameCloseIsLawful(env: Env, s: State, accepted: seq<OrderId>, now: int, candle: Candle, consumed: real)
    requires Sorting.NoDup(accepted) && AllLawful(s.orders, now, AcceptedNow(s, accepted, now))
    requires forall id :: id in accepted ==> id in s.orders
    requires env.config.timing.NextCandle? ==> AcceptedNow(s, accepted, now) == {}
    ensures var o := SameClose(env, s, accepted, now, candle, consumed);
            o.failure.None? ==> AllLawful(o.state.orders, now, {})
  {
    hide EvaluateAll, MarkToMarket, AllLawful;
    KeepEligibleKeeps(s.orders, accepted, now);
    var eligible := KeepEligible(s.orders, accepted, now);
    SortKeeps(eligible);
    var ids := SortIds(eligible);
    var todo := AcceptedNow(s, accepted, now);
    assert Ids(ids) == todo;
    EvaluateAllIsLawful(env, s, ids, now, candle, consumed, Some(candle.close), todo);
    assert todo - Ids(ids) == {};
  }

  /** Between the passes of a candle only its new orders are still to be evaluated. */
  lemma AcceptedIsLawful(env: Env, strategy: Strategy, k: nat, s: State, parts: Parts)
    requires Reached(env, strategy, k, s) && k > 0
    requires Reached(env, strategy, k - 1, parts.start) && IsCandle(env, k - 1, parts, s)
    requires AllLawful(parts.start.orders, k - 2, {})
    ensures var a := parts.accepted;
            && AllLawful(a.state.orders, k - 1, AcceptedNow(a.state, a.accepted, k - 1))
            && Sorting.NoDup(a.accepted) && (forall id :: id in a.accepted ==> id in a.state.orders)
            && (env.config.timing.NextCandle? ==> AcceptedNow(a.state, a.accepted, k - 1) == {})
  {
    hide Run, Reached, AllLawful, Answers, BeforeDecision, AcceptIntents, SameClose, CheckCandle, AcceptedInto, Between,
         AcceptedNow, Inv;
    PartsKeep(env, strategy, k, s, parts);
    BookIsListed(env, parts.start, k - 2);
    hide Current, Advance;
    BeforeDecisionIsLawful(env, parts.start, k - 1, env.candles[k - 1]);
    AcceptanceAnswers(env, parts.decided, parts.intents, k - 1);
    AcceptanceIsLawful(env, parts.decided, parts.intents, k - 1, parts.accepted);
  }

  lemma ClosedIsLawful(env: Env, index: int, parts: Parts, s: State)
    requires 0 <= index < |env.candles| && IsCandle(env, index, parts, s)
    requires var a := parts.accepted;
             && AllLawful(a.state.orders, index, AcceptedNow(a.state, a.accepted, index))
             && Sorting.NoDup(a.accepted) && (forall id :: id in a.accepted ==> id in a.state.orders)
             && (env.config.timing.NextCandle? ==> AcceptedNow(a.state, a.accepted, index) == {})
    ensures AllLawful(s.orders, index, {})
  {
    hide AllLawful, BeforeDecision, AcceptIntents, SameClose, CheckCandle, AcceptedNow;
    SameCloseIsLawful(env, parts.accepted.state, parts.accepted.accepted, index, env.candles[index],
                      parts.before.consumed);
  }

  /** In every run the status of every order is the one its terms, its fills and the last candle leave it. */
  lemma {:induction false} RunIsLawful(env: Env, strategy: Strategy, k: nat, s: State)
    requires Reached(env, strategy, k, s)
    ensures AllLawful(s.orders, k - 1, {})
  {
    hide Run, AllLawful, IsCandle, AcceptedNow;
    if k == 0 {
      NoOrderAtStart(env, strategy, s);
    } else {
      var parts := LastCandle(env, strategy, k, s);
      RunIsLawful(env, strategy, k - 1, parts.start);
      AcceptedIsLawful(env, strategy, k, s, parts);
      ClosedIsLawful(env, k - 1, parts, s);
    }
  }

  lemma BookIsListed(env: Env, s: State, now: int)
    requires Inv(env, s, now, {})
    ensures Sorting.NoDup(s.orderIds) && forall id :: id in s.orderIds <==> id in s.orders
  {
  }

  lemma NoOrderAtStart(env: Env, strategy: Strategy, s: State)
    requires Reached(env, strategy, 0, s)
    ensures AllLawful(s.orders, -1, {})
  {
  }

  /**
   After k candles of any run: an order is Filled exactly when its quantity is complete; an incomplete one waits
   untouched until its window opens, is cancelled with its one candle if it is IOC or BAR, stays open while a GTC
   order's window lasts, and expires with it. No other status occurs.
   */
  lemma OrdersEndOnTime(env: Env, strategy: Strategy, k: nat, s: State, id: OrderId)
    requires Reached(env, strategy, k, s) && id in s.orders
    ensures var o := s.orders[id];
            && (o.status.Filled? <==> o.filled == o.requested)
            && (o.status.Cancelled? <==> o.filled < o.requested && !o.tif.GTC? && o.eligible < k)
            && (o.status.Expired? <==> o.filled < o.requested && o.tif.GTC? && o.expiresAfter < k)
            && (o.Active() <==> o.filled < o.requested && k <= if o.tif.GTC? then o.expiresAfter else o.eligible)
            && (o.status.Accepted? <==> o.Active() && o.filled == 0.0)
            && (o.eligible >= k ==> o.status.Accepted? && o.filled == 0.0)
  {
    hide Run, ValidEnv;
    RunIsLawful(env, strategy, k, s);
    assert Lawful(s.orders[id], k - 1);
  }

  /** The status an order is left with when the run is closed after candle `last`. */
  function FinalStatus(o: Order, last: int): Status {
    if o.filled == o.requested then Filled else if o.tif.GTC? && o.expiresAfter <= last then Expired else Cancelled
  }

  /** Closing a run gives every order its final status and changes nothing else about it. */
  lemma ClosingSettlesOrders(env: Env, strategy: Strategy, k: nat, s: State, id: OrderId)
    requires Reached(env, strategy, k, s) && id in s.orders
    ensures Closing(s).state.orders.Keys == s.orders.Keys
    ensures Closing(s).state.orders[id] == s.orders[id].(status := FinalStatus(s.orders[id], k - 1))
  {
    hide Run, ValidEnv, Inv;
    RunIsLawful(env, strategy, k, s);
    ReachedKeeps(env, strategy, k, s);
    BookIsListed(env, s, k - 1);
    CancelActiveOnlyCancels(s.orders, s.orderIds);
    assert Lawful(s.orders[id], k - 1);
    FinalIsLawful(s.orders[id], k - 1);
    assert Closing(s).state.orders == CancelActive(s.orders, s.orderIds);
  }

  lemma FinalIsLawful(o: Order, last: int)
    requires Lawful(o, last)
    ensures o.Active() ==> FinalStatus(o, last) == Cancelled
    ensures !o.Active() ==> FinalStatus(o, last) == o.status
  {
  }
}
