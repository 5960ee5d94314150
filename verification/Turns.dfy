/**
 Every order gets its turn: on every candle of every run, each standing order is evaluated against what the account,
 the volume and the orders before it left, and fills then exactly when it can.
 */
module Turns {
  import opened Wrappers
  import opened Domain
  import opened Simulator
  import opened Accounting
  import opened Engine
  import opened Sorting
  import Liquidity
  import OrderLifecycle
  import opened EngineInvariant
  import opened EngineSteps
  import opened EngineTheorems
  import opened CandleSteps
  import opened FillRule
  import opened Evidence

  /** The fill is at the order's price, for the largest quantity that is allowed. */
  ghost predicate BestFill(order: Order, candle: Candle, account: Account, config: Config, consumed: real,
                           reference: real, f: Fill)
  {
    && TradesAt(order, candle, config, reference, f.fillPrice)
    && Affords(order, candle, account, config, consumed, f.fillPrice, f.quantity)
    && forall q :: Affords(order, candle, account, config, consumed, f.fillPrice, q) ==> q <= f.quantity
  }

  ghost predicate Filled(s: State, p: Pass, id: OrderId, index: int, candle: Candle, config: Config, consumed: real,
                         reference: real, f: Fill)
    requires id in s.orders
  {
    && f.orderId == id && f.candleIndex == index && p.state.fills == s.fills + [f]
    && BestFill(s.orders[id], candle, s.account, config, consumed, reference, f)
    && id in p.state.orders && p.state.orders[id].filled == s.orders[id].filled + f.quantity
    && p.consumed == consumed + f.quantity
  }

  ghost predicate Untouched(s: State, p: Pass, id: OrderId, consumed: real)
    requires id in s.orders
  {
    && p.state.account == s.account && p.state.fills == s.fills && p.consumed == consumed
    && id in p.state.orders && p.state.orders[id].filled == s.orders[id].filled
  }

  /** One turn: the order fills exactly when it can, as well as it can; otherwise no money or quantity moves. */
  ghost predicate TurnTaken(
    env: Env, s: State, p: Pass, id: OrderId, index: int, candle: Candle, consumed: real, reference: real)
    requires id in s.orders
  {
    if CanFill(s.orders[id], candle, s.account, env.config, index, consumed, reference)
    then exists f :: Filled(s, p, id, index, candle, env.config, consumed, reference, f)
    else Untouched(s, p, id, consumed)
  }

  function ReferenceOf(candle: Candle, reference: Option<real>): real {
    if reference.Some? then reference.value else candle.open
  }

  lemma OneTurn(env: Env, s: State, id: OrderId, index: int, candle: Candle, consumed: real, reference: Option<real>)
    requires id in s.orders && s.orders[id].Valid() && s.orders[id].Active() && s.orders[id].orderId == id
    requires index >= 0 && candle.Valid() && consumed >= 0.0
    ensures var p := EvaluateOne(env, s, id, index, candle, consumed, reference);
            p.failure.None? ==> TurnTaken(env, s, p, id, index, candle, consumed, ReferenceOf(candle, reference))
  {
    hide EvaluateOrder, ApplyFill, CanFill, TradesAt, Affords;
    var order := s.orders[id];
    var r := EvaluateOrder(order, candle, s.account, env.config, index, consumed, reference);
    FillsIffItCan(order, candle, s.account, env.config, index, consumed, reference);
    if r.Ok? && r.value.Filling? {
      FillIsBounded(order, candle, s.account, env.config, index, consumed, reference);
      assert FillOutcome(order, s.account, env.config, index, consumed, r.value);
      FilledTurn(env, s, id, index, candle, consumed, reference, r.value);
    }
  }

  lemma FilledTurn(env: Env, s: State, id: OrderId, index: int, candle: Candle, consumed: real,
                   reference: Option<real>, e: Evaluation)
    requires id in s.orders && s.orders[id].Valid() && s.orders[id].Active() && s.orders[id].orderId == id
    requires Yields(env, s, id, index, candle, consumed, reference, e)
    requires FillOutcome(s.orders[id], s.account, env.config, index, consumed, e)
    requires BestFill(s.orders[id], candle, s.account, env.config, consumed, ReferenceOf(candle, reference), e.fill)
    ensures var p := EvaluateOne(env, s, id, index, candle, consumed, reference);
            p.failure.None? ==>
              Filled(s, p, id, index, candle, env.config, consumed, ReferenceOf(candle, reference), e.fill)
  {
    hide EvaluateOrder, ApplyFill, BestFill;
  }

  // ---------------------------------------------------------------- one pass

  /** The pass up to, but not including, its `j`-th order. */
  function Before(env: Env, s: State, ids: seq<OrderId>, index: int, candle: Candle, consumed: real,
                  reference: Option<real>, j: nat): Pass
    requires j <= |ids|
  {
    EvaluateAll(env, s, ids[..j], index, candle, consumed, reference)
  }

  /** The `j`-th order stands untouched until its turn, and takes it. */
  ghost predicate TurnAt(env: Env, s: State, ids: seq<OrderId>, index: int, candle: Candle, consumed: real,
                         reference: Option<real>, j: nat)
    requires j < |ids|
  {
    var before := Before(env, s, ids, index, candle, consumed, reference, j);
    var after := Before(env, s, ids, index, candle, consumed, reference, j + 1);
    var id := ids[j];
    && id in s.orders && id in before.state.orders && before.state.orders[id] == s.orders[id]
    && TurnTaken(env, before.state, after, id, index, candle, before.consumed, ReferenceOf(candle, reference))
  }

  ghost predicate AllTurns(env: Env, s: State, ids: seq<OrderId>, index: int, candle: Candle, consumed: real,
                           reference: Option<real>)
  {
    forall j: nat :: j < |ids| ==> TurnAt(env, s, ids, index, candle, consumed, reference, j)
  }

  /** A pass is its first orders and then the next one. */
  lemma {:induction false} PassSplits(env: Env, s: State, ids: seq<OrderId>, id: OrderId, index: int, candle: Candle,
                                      consumed: real, reference: Option<real>)
    ensures var first := EvaluateAll(env, s, ids, index, candle, consumed, reference);
            EvaluateAll(env, s, ids + [id], index, candle, consumed, reference)
            == if first.failure.Some? then first
               else EvaluateOne(env, first.state, id, index, candle, first.consumed, reference)
    decreases |ids|
  {
    hide EvaluateOne;
    if ids == [] {
      assert [id][1..] == [];
    } else {
      assert (ids + [id])[1..] == ids[1..] + [id];
      var next := EvaluateOne(env, s, ids[0], index, candle, consumed, reference);
      PassSplits(env, next.state, ids[1..], id, index, candle, next.consumed, reference);
    }
  }

  /** Evaluating other orders leaves an order alone. */
  lemma {:induction false} OthersWait(env: Env, s: State, ids: seq<OrderId>, index: int, candle: Candle,
                                      consumed: real, reference: Option<real>, id: OrderId)
    requires id in s.orders && id !in ids
    ensures var p := EvaluateAll(env, s, ids, index, candle, consumed, reference);
            p.failure.None? ==> id in p.state.orders && p.state.orders[id] == s.orders[id]
    decreases |ids|
  {
    if ids != [] {
      assert ids[0] != id;
      OtherWaits(env, s, ids[0], index, candle, consumed, reference, id);
      hide EvaluateOne;
      var p := EvaluateOne(env, s, ids[0], index, candle, consumed, reference);
      if p.failure.None? { OthersWait(env, p.state, ids[1..], index, candle, p.consumed, reference, id); }
    }
  }

  lemma OtherWaits(env: Env, s: State, other: OrderId, index: int, candle: Candle, consumed: real,
                   reference: Option<real>, id: OrderId)
    requires id in s.orders && id != other
    ensures var p := EvaluateOne(env, s, other, index, candle, consumed, reference);
            p.failure.None? ==> id in p.state.orders && p.state.orders[id] == s.orders[id]
  {
    hide EvaluateOrder, ApplyFill, Settled;
  }

  lemma PrefixIsDistinct(ids: seq<OrderId>, j: nat)
    requires NoDup(ids) && j < |ids|
    ensures NoDup(ids[..j]) && ids[j] !in ids[..j] && ids[..j + 1] == ids[..j] + [ids[j]]
    ensures Ids(ids[..j]) <= Ids(ids) && ids[j] !in Ids(ids[..j]) && ids[j] in Ids(ids)
  {
  }

  /** The first orders of a pass that succeeds succeed. */
  lemma {:induction false} EarlierSucceed(env: Env, s: State, ids: seq<OrderId>, index: int, candle: Candle,
                                          consumed: real, reference: Option<real>, j: nat)
    requires j <= |ids| && EvaluateAll(env, s, ids, index, candle, consumed, reference).failure.None?
    ensures Before(env, s, ids, index, candle, consumed, reference, j).failure.None?
    decreases |ids| - j
  {
    hide EvaluateAll, EvaluateOne;
    if j < |ids| {
      EarlierSucceed(env, s, ids, index, candle, consumed, reference, j + 1);
      assert ids[..j + 1] == ids[..j] + [ids[j]];
      PassSplits(env, s, ids[..j], ids[j], index, candle, consumed, reference);
    } else {
      assert ids[..j] == ids;
    }
  }

  /** In a pass over distinct standing orders that succeeds, each takes its turn. */
  lemma PassTakesTurns(env: Env, s: State, ids: seq<OrderId>, index: int, candle: Candle, consumed: real,
                       reference: Option<real>, todo: set<OrderId>)
    requires Inv(env, s, index, todo) && index >= 0 && candle.Valid() && consumed >= 0.0
    requires NoDup(ids) && Ids(ids) <= todo && Ids(ids) <= s.orders.Keys
    requires forall id :: id in ids ==> id in s.orders && s.orders[id].Active()
    requires EvaluateAll(env, s, ids, index, candle, consumed, reference).failure.None?
    ensures AllTurns(env, s, ids, index, candle, consumed, reference)
  {
    hide Inv, EvaluateAll, EvaluateOne, TurnTaken;
    forall j: nat | j < |ids| ensures TurnAt(env, s, ids, index, candle, consumed, reference, j) {
      var id, front := ids[j], ids[..j];
      PrefixIsDistinct(ids, j);
      EarlierSucceed(env, s, ids, index, candle, consumed, reference, j);
      EarlierSucceed(env, s, ids, index, candle, consumed, reference, j + 1);
      OthersWait(env, s, front, index, candle, consumed, reference, id);
      EvaluateAllKeeps(env, s, front, index, candle, consumed, reference, todo);
      var before := EvaluateAll(env, s, front, index, candle, consumed, reference);
      BookKnows(env, before.state, id, index, todo - Ids(front));
      OneTurn(env, before.state, id, index, candle, before.consumed, reference);
      PassSplits(env, s, front, id, index, candle, consumed, reference);
    }
  }

  // ---------------------------------------------------------------- both passes of a candle

  /** The first pass: every order still open from earlier candles, by ascending identity, before the decision. */
  ghost predicate FirstPass(env: Env, index: int, parts: Parts, ids: seq<OrderId>)
    requires 0 <= index < |env.candles|
  {
    var entered, candle := EnterSegment(env, parts.start, index), env.candles[index];
    && Ascending(ids) && NoDup(ids)
    && (forall id :: id in ids <==> id in parts.start.orders && parts.start.orders[id].Active())
    && entered == parts.start.(boundaryRecords := entered.boundaryRecords)
    && AllTurns(env, entered, ids, index, candle, 0.0, None)
    && var last := Before(env, entered, ids, index, candle, 0.0, None, |ids|);
       last.state.fills == parts.before.state.fills && last.consumed == parts.before.consumed
  }

  /** The second pass: in same-close mode the orders just accepted whose window opens at once, at the close. */
  ghost predicate SecondPass(env: Env, index: int, parts: Parts, s: State, ids: seq<OrderId>)
    requires 0 <= index < |env.candles|
  {
    var accepted, candle := parts.accepted.state, env.candles[index];
    && accepted.fills == parts.before.state.fills
    && Ascending(ids) && NoDup(ids)
    && (forall id :: id in ids <==>
          && env.config.timing.SameCloseDiagnostic? && id in parts.accepted.accepted
          && id in accepted.orders && accepted.orders[id].eligible == index)
    && AllTurns(env, accepted, ids, index, candle, parts.before.consumed, Some(candle.close))
    && Before(env, accepted, ids, index, candle, parts.before.consumed, Some(candle.close), |ids|).state.fills
       == s.fills
  }

  lemma FirstPassTurns(env: Env, index: int, parts: Parts) returns (ids: seq<OrderId>)
    requires 0 <= index < |env.candles| && env.candles[index].Valid()
    requires Inv(env, parts.start, index - 1, {}) && CheckCandle(env, parts.start, index, env.candles[index]).None?
    requires parts.before == BeforeDecision(env, parts.start, index, env.candles[index])
    requires parts.before.failure.None?
    ensures FirstPass(env, index, parts, ids)
  {
    hide Inv, EvaluateAll, AllTurns, TurnAt, EnterSegment, BeforeDecision, ActiveIds, SortIds, NonCash;
    var s, candle := parts.start, env.candles[index];
    var entered := EnterSegment(env, s, index);
    OpenCandle(env, s, index);
    StandingOrders(env, s, index);
    ids := SortIds(ActiveIds(entered));
    OpeningIsPass(env, s, index, candle);
    PassTakesTurns(env, entered, ids, index, candle, 0.0, None, Ids(ActiveIds(s)));
    assert ids[..|ids|] == ids;
  }

  lemma StandingOrders(env: Env, s: State, index: int)
    requires Inv(env, s, index - 1, {})
    ensures var entered := EnterSegment(env, s, index);
            var ids := SortIds(ActiveIds(entered));
            && entered == s.(boundaryRecords := entered.boundaryRecords)
            && Ascending(ids) && NoDup(ids) && Ids(ids) == Ids(ActiveIds(s))
            && forall id :: id in ids <==> id in s.orders && s.orders[id].Active()
  {
    hide Inv;
    var entered := EnterSegment(env, s, index);
    BookOf(env, s, index - 1);
    ActiveIdsKeeps(entered);
    SortKeeps(ActiveIds(entered));
    assert ActiveIds(entered) == ActiveIds(s);
    hide ActiveIds, SortIds;
  }

  /** What happens before the decision is the first pass and a mark. */
  lemma OpeningIsPass(env: Env, s: State, index: int, candle: Candle)
    requires BeforeDecision(env, s, index, candle).failure.None?
    ensures var entered := EnterSegment(env, s, index);
            var pass := EvaluateAll(env, entered, SortIds(ActiveIds(entered)), index, candle, 0.0, None);
            var before := BeforeDecision(env, s, index, candle);
            && pass.failure.None? && pass.state.fills == before.state.fills && pass.consumed == before.consumed
  {
    hide EvaluateAll, EnterSegment, ActiveIds, SortIds, MarkToMarket;
  }

  lemma NewOrdersAreActive(orders: map<OrderId, Order>, now: int, todo: set<OrderId>, id: OrderId)
    requires OrderLifecycle.AllLawful(orders, now, todo) && id in todo && id in orders && orders[id].eligible == now
    ensures orders[id].Active()
  {
    assert OrderLifecycle.Lawful(orders[id], now - 1);
  }

  lemma SecondPassTurns(env: Env, index: int, parts: Parts, s: State) returns (ids: seq<OrderId>)
    requires 0 <= index < |env.candles| && IsCandle(env, index, parts, s) && env.candles[index].Valid()
    requires AcceptedInto(env, parts.decided, parts.accepted, index) && parts.before.consumed >= 0.0
    requires OrderLifecycle.AllLawful(parts.accepted.state.orders, index,
                                      AcceptedNow(parts.accepted.state, parts.accepted.accepted, index))
    ensures SecondPass(env, index, parts, s, ids)
  {
    hide Inv, EvaluateAll, AllTurns, TurnAt, CheckCandle, BeforeDecision, AcceptIntents, OrderLifecycle.AllLawful;
    var a, candle, consumed := parts.accepted, env.candles[index], parts.before.consumed;
    Liquidity.AcceptKeepsFills(env, parts.decided, parts.intents, index, |parts.decided.decisions|);
    if env.config.timing.NextCandle? {
      ids := [];
      NoTurns(env, a.state, index, candle, consumed, Some(candle.close));
    } else {
      var eligible := KeepEligible(a.state.orders, a.accepted, index);
      KeepEligibleKeeps(a.state.orders, a.accepted, index);
      SortKeeps(eligible);
      ids := SortIds(eligible);
      var todo := AcceptedNow(a.state, a.accepted, index);
      assert Ids(ids) == todo;
      forall id | id in ids ensures id in a.state.orders && a.state.orders[id].Active() {
        NewOrdersAreActive(a.state.orders, index, todo, id);
      }
      hide SortIds, KeepEligible;
      var pass := EvaluateAll(env, a.state, ids, index, candle, consumed, Some(candle.close));
      assert pass.failure.None?;
      PassTakesTurns(env, a.state, ids, index, candle, consumed, Some(candle.close), todo);
      assert ids[..|ids|] == ids;
      assert s.fills == pass.state.fills;
    }
  }

  lemma NoTurns(env: Env, s: State, index: int, candle: Candle, consumed: real, reference: Option<real>)
    ensures AllTurns(env, s, [], index, candle, consumed, reference)
    ensures Before(env, s, [], index, candle, consumed, reference, 0) == Pass(s, consumed, None)
  {
  }

  /**
   On the last candle of every run, and so on each of its candles: every order open from before is evaluated once
   before the decision, every order accepted for the same close once after it, each against what its predecessors
   left, and each fills exactly when it can, as well as it can.
   */
  lemma EveryOrderGetsItsTurn(env: Env, strategy: Strategy, k: nat, s: State)
    returns (parts: Parts, first: seq<OrderId>, second: seq<OrderId>)
    requires Reached(env, strategy, k, s) && k > 0
    ensures Reached(env, strategy, k - 1, parts.start) && IsCandle(env, k - 1, parts, s)
    ensures FirstPass(env, k - 1, parts, first) && SecondPass(env, k - 1, parts, s, second)
  {
    hide Run, Inv, BeforeDecision, AcceptIntents, SameClose, CheckCandle, FirstPass, SecondPass,
         OrderLifecycle.AllLawful;
    parts := LastCandle(env, strategy, k, s);
    PartsKeep(env, strategy, k, s, parts);
    OrderLifecycle.RunIsLawful(env, strategy, k - 1, parts.start);
    OrderLifecycle.AcceptedIsLawful(env, strategy, k, s, parts);
    first := FirstPassTurns(env, k - 1, parts);
    second := SecondPassTurns(env, k - 1, parts, s);
  }

  // ---------------------------------------------------------------- what the strategy is shown of the orders

  lemma {:induction false} OrdersShown(orders: map<OrderId, Order>, ids: seq<OrderId>)
    requires forall id :: id in ids ==> id in orders
    ensures |OrdersOf(orders, ids)| == |ids|
    ensures forall j :: 0 <= j < |ids| ==> OrdersOf(orders, ids)[j] == orders[ids[j]]
  {
    if ids != [] {
      OrdersShown(orders, ids[1..]);
      forall j | 0 <= j < |ids| ensures OrdersOf(orders, ids)[j] == orders[ids[j]] {
        if j > 0 { assert ids[1..][j - 1] == ids[j]; }
      }
    }
  }

  /** These orders of the state, one for each identity, in ascending order. */
  ghost predicate Lists(s: State, ids: seq<OrderId>, shown: seq<Order>) {
    && Ascending(ids) && NoDup(ids) && |shown| == |ids|
    && forall j :: 0 <= j < |ids| ==> ids[j] in s.orders && shown[j] == s.orders[ids[j]]
  }

  /** On every candle the strategy is shown the account and exactly the orders still open after the first pass. */
  lemma StrategySeesOpenOrders(env: Env, strategy: Strategy, k: nat, s: State)
    returns (parts: Parts, ids: seq<OrderId>)
    requires Reached(env, strategy, k, s) && k > 0
    ensures Reached(env, strategy, k - 1, parts.start) && IsCandle(env, k - 1, parts, s)
    ensures |Run(env, strategy, k).contexts| > 0
    ensures var contexts := Run(env, strategy, k).contexts;
            var c, p := contexts[|contexts| - 1], parts.before.state;
            && c.account == p.account && Lists(p, ids, c.activeOrders)
            && forall id :: id in ids <==> id in p.orders && p.orders[id].Active()
  {
    hide Run, Inv, BeforeDecision, AcceptIntents, SameClose, CheckCandle;
    parts := LastCandle(env, strategy, k, s);
    PartsKeep(env, strategy, k, s, parts);
    var p := parts.before.state;
    OrderLifecycle.BookIsListed(env, p, k - 1);
    ActiveIdsKeeps(p);
    ActiveIdsAscend(p);
    ids := ActiveIds(p);
    hide ActiveIds, OrdersOf;
    OrdersShown(p.orders, ids);
  }

  lemma {:induction false} KeepActiveAscends(orders: map<OrderId, Order>, ids: seq<OrderId>)
    requires Ascending(ids)
    ensures Ascending(KeepActive(orders, ids)) && forall id :: id in KeepActive(orders, ids) ==> id in ids
  {
    if ids != [] {
      var rest := ids[1..];
      forall i, j | 0 <= i < j < |rest| ensures rest[i] <= rest[j] { assert ids[i + 1] <= ids[j + 1]; }
      KeepActiveAscends(orders, rest);
      forall id | id in rest ensures ids[0] <= id {
        var j :| 0 <= j < |rest| && rest[j] == id;
        assert ids[0] <= ids[j + 1];
      }
      FirstIsLeast(ids[0], KeepActive(orders, rest));
      assert KeepActive(orders, ids) == KeepActive(orders, rest)
          || KeepActive(orders, ids) == [ids[0]] + KeepActive(orders, rest);
    }
  }

  lemma FirstIsLeast(first: OrderId, rest: seq<OrderId>)
    requires Ascending(rest) && forall id :: id in rest ==> first <= id
    ensures Ascending([first] + rest)
  {
    var all := [first] + rest;
    forall i, j | 0 <= i < j < |all| ensures all[i] <= all[j] { assert all[j] == rest[j - 1] && all[j] in rest; }
  }

  lemma ActiveIdsAscend(s: State)
    requires NoDup(s.orderIds)
    ensures Ascending(ActiveIds(s))
  {
    SortKeeps(s.orderIds);
    KeepActiveAscends(s.orders, SortIds(s.orderIds));
  }
}
