/** The invariant through every operation of the engine, up to whole runs and their reconciliation. */
module EngineSteps {
  import opened Wrappers
  import opened Domain
  import opened Simulator
  import opened Accounting
  import opened Trades
  import opened Engine
  import opened EngineInvariant
  import opened Sorting

  /** A verified dataset and an experiment on it. */
  ghost predicate ValidEnv(env: Env) {
    && Injective(env.digest)
    && env.initialCash > 0.0
    && forall k :: 0 <= k < |env.candles| ==> env.candles[k].Valid()
  }

  ghost predicate FeesWithinProceeds(config: Config) {
    config.makerFeeRate <= 1.0 && config.takerFeeRate <= 1.0
  }

  /** The only ways a run on verified candles can stop early. */
  ghost predicate Permitted(config: Config, failure: Failure) {
    match failure
    case Chronology(e) => e.Incomplete? || e.InstrumentMismatch? || e.TimeframeMismatch? || e.NonCashBoundary?
    case Simulation(e) => e.BadCosts? || e.BadRoundedPrice?
    case Books(e) => e.NegativeBalance? && !FeesWithinProceeds(config)
    case StrategyContract => true
    case DuplicateOrderIdentity => false
  }

  /** What evaluating orders leaves alone. */
  ghost predicate SameFrame(s: State, s': State) {
    s' == s.(account := s'.account, orders := s'.orders, fills := s'.fills, ledger := s'.ledger)
    && s'.orders.Keys == s.orders.Keys
    && forall id :: id in s.orders ==> SameTerms(s.orders[id], s'.orders[id])
  }

  ghost predicate SameTerms(o: Order, o': Order) {
    o' == o.(filled := o'.filled, status := o'.status)
  }

  // ---------------------------------------------------------------- evaluating orders

  lemma RecordThenSettle(env: Env, s: State, id: OrderId, now: int, todo: set<OrderId>, e: Evaluation, consumed: real)
    requires Recordable(env, s, id, now, todo, e, consumed)
    ensures Inv(env, SettleOrder(RecordFill(s, s.orders[id], e), id, now), now, todo - {id})
  {
    hide Balanced, Book, Ledgered, FillsInOrder, Derived;
    BookKnows(env, s, id, now, todo);
    var s' := RecordFill(s, s.orders[id], e);
    RecordKeepsBalance(env, s, id, now, todo, e, consumed);
    RecordKeepsBook(env, s, id, now, todo, e, consumed);
    RecordKeepsLedger(env, s, id, now, todo, e, consumed);
    RecordKeepsFills(env, s, id, now, todo, e, consumed);
    RecordKeepsTrades(env, s, id, now, e);
    RecordKeepsOthersClock(env, s, id, now, todo, e, consumed);
    SettleKeepsInvariant(env, s', id, now, todo);
  }

  lemma NoFillThenSettle(env: Env, s: State, id: OrderId, now: int, todo: set<OrderId>)
    requires Inv(env, s, now, todo) && id in s.orders
    ensures Inv(env, SettleOrder(s, id, now), now, todo - {id})
  {
    hide Balanced, Book, Ledgered, FillsInOrder, Derived, SameSegment;
    SettleKeepsInvariant(env, s, id, now, todo);
  }

  lemma UnsolventNeedsFee(env: Env, s: State, order: Order, now: int, consumed: real, e: Evaluation)
    requires Balanced(env.initialCash, s.account) && e.Filling?
    requires FillOutcome(order, s.account, env.config, now, consumed, e)
    requires s.account.cash + CashDelta(order.side, e.fill) < 0.0
    ensures !FeesWithinProceeds(env.config)
  {
    var cash := s.account.cash;
    assert cash >= 0.0;
    hide Balanced, FeesWithinProceeds;
    if FeesWithinProceeds(env.config) {
      FeeIsCovered(order, env.config, e.fill);
    }
  }

  lemma FeeIsCovered(order: Order, config: Config, fill: Fill)
    requires FeesWithinProceeds(config) && fill.Valid() && fill.fee == fill.notional * FeeRate(order, config)
    ensures fill.fee <= fill.notional
  {
    FeeWithinProceeds(fill.notional, FeeRate(order, config));
  }

  /** The three ways an active order can leave its evaluation. */
  ghost predicate Yields(
    env: Env, s: State, id: OrderId, now: int, candle: Candle, consumed: real, reference: Option<real>,
    e: Evaluation)
    requires id in s.orders && s.orders[id].Valid()
  {
    e.Filling? && EvaluateOrder(s.orders[id], candle, s.account, env.config, now, consumed, reference) == Ok(e)
  }

  lemma FillingIsRecorded(env: Env, s: State, id: OrderId, now: int, candle: Candle, consumed: real,
                          reference: Option<real>, e: Evaluation)
    requires id in s.orders && s.orders[id].Valid() && s.orders[id].Active() && s.orders[id].orderId == id
    requires Yields(env, s, id, now, candle, consumed, reference, e)
    requires ApplyFill(s.account, s.orders[id], e.fill, |s.ledger| + 1)
             == Ok((Updated(s.account, s.orders[id].side, e.fill),
                    Entry(s.account, s.orders[id], e.fill, |s.ledger| + 1)))
    requires SameTerms(s.orders[id], e.order)
    ensures EvaluateOne(env, s, id, now, candle, consumed, reference)
            == Pass(SettleOrder(RecordFill(s, s.orders[id], e), id, now), e.consumed, None)
    ensures SameFrame(s, SettleOrder(RecordFill(s, s.orders[id], e), id, now))
  {
  }

  lemma FillingKeeps(env: Env, s: State, id: OrderId, now: int, candle: Candle, consumed: real,
                     reference: Option<real>, todo: set<OrderId>, e: Evaluation)
    requires Inv(env, s, now, todo) && id in todo && id in s.orders && now >= 0
    requires s.orders[id].Valid() && s.orders[id].Active() && s.orders[id].orderId == id
    requires Yields(env, s, id, now, candle, consumed, reference, e)
    ensures var p := EvaluateOne(env, s, id, now, candle, consumed, reference);
            && (p.failure.None? ==>
                  Inv(env, p.state, now, todo - {id}) && SameFrame(s, p.state) && p.consumed == e.consumed)
            && (p.failure.Some? ==> Permitted(env.config, p.failure.value))
    ensures e.consumed > consumed
  {
    hide Book, Ledgered, FillsInOrder, Clock, Derived, EvaluateOrder, ApplyFill;
    var order := s.orders[id];
    FillIsBounded(order, candle, s.account, env.config, now, consumed, reference);
    assert FillOutcome(order, s.account, env.config, now, consumed, e);
    FillIsAppliedIffSolvent(env.initialCash, s.account, order, e.fill, |s.ledger| + 1);
    if s.account.cash + CashDelta(order.side, e.fill) >= 0.0 {
      FillingIsRecorded(env, s, id, now, candle, consumed, reference, e);
      RecordThenSettle(env, s, id, now, todo, e, consumed);
    } else {
      UnsolventNeedsFee(env, s, order, now, consumed, e);
    }
  }

  lemma InactiveNeedsNothing(env: Env, s: State, id: OrderId, now: int, todo: set<OrderId>)
    requires Inv(env, s, now, todo) && id in s.orders && !s.orders[id].Active()
    ensures Inv(env, s, now, todo - {id})
  {
  }

  lemma BookKnows(env: Env, s: State, id: OrderId, now: int, todo: set<OrderId>)
    requires Inv(env, s, now, todo) && id in s.orders
    ensures Known(env, s, id)
  {
  }

  lemma EvaluateOneKeeps(env: Env, s: State, id: OrderId, now: int, candle: Candle, consumed: real,
                         reference: Option<real>, todo: set<OrderId>)
    requires Inv(env, s, now, todo) && id in todo && id in s.orders && now >= 0 && candle.Valid() && consumed >= 0.0
    ensures var p := EvaluateOne(env, s, id, now, candle, consumed, reference);
            && (p.failure.None? ==> Inv(env, p.state, now, todo - {id}) && SameFrame(s, p.state) && p.consumed >= 0.0)
            && (p.failure.Some? ==> Permitted(env.config, p.failure.value))
  {
    hide Inv;
    BookKnows(env, s, id, now, todo);
    var order := s.orders[id];
    if !order.Active() {
      InactiveNeedsNothing(env, s, id, now, todo);
    } else {
      EvaluationRaisesOnlyOnCosts(order, candle, s.account, env.config, now, consumed, reference);
      var r := EvaluateOrder(order, candle, s.account, env.config, now, consumed, reference);
      if r.Ok? && r.value.NoFill? {
        NoFillThenSettle(env, s, id, now, todo);
      } else if r.Ok? {
        FillingKeeps(env, s, id, now, candle, consumed, reference, todo, r.value);
      }
    }
  }

  ghost function Ids(ids: seq<OrderId>): set<OrderId> {
    set id | id in ids
  }

  lemma {:induction false} EvaluateAllKeeps(
    env: Env, s: State, ids: seq<OrderId>, now: int, candle: Candle, consumed: real, reference: Option<real>,
    todo: set<OrderId>)
    requires Inv(env, s, now, todo) && now >= 0 && candle.Valid() && consumed >= 0.0
    requires NoDup(ids) && Ids(ids) <= todo && Ids(ids) <= s.orders.Keys
    ensures var p := EvaluateAll(env, s, ids, now, candle, consumed, reference);
            && (p.failure.None? ==>
                  Inv(env, p.state, now, todo - Ids(ids)) && SameFrame(s, p.state) && p.consumed >= 0.0)
            && (p.failure.Some? ==> Permitted(env.config, p.failure.value))
    decreases |ids|
  {
    hide Inv;
    if ids == [] {
      assert todo - Ids(ids) == todo;
    } else {
      var p := EvaluateOne(env, s, ids[0], now, candle, consumed, reference);
      assert ids[0] in Ids(ids);
      EvaluateOneKeeps(env, s, ids[0], now, candle, consumed, reference, todo);
      if p.failure.None? {
        SplitIds(ids);
        EvaluateAllKeeps(env, p.state, ids[1..], now, candle, p.consumed, reference, todo - {ids[0]});
        assert todo - {ids[0]} - Ids(ids[1..]) == todo - Ids(ids);
        var rest := EvaluateAll(env, p.state, ids[1..], now, candle, p.consumed, reference);
        if rest.failure.None? {
          FramesCompose(s, p.state, rest.state);
        }
      }
    }
  }

  lemma SplitIds(ids: seq<OrderId>)
    requires ids != [] && NoDup(ids)
    ensures NoDup(ids[1..]) && Ids(ids) == {ids[0]} + Ids(ids[1..]) && ids[0] !in Ids(ids[1..])
  {
    assert ids == [ids[0]] + ids[1..];
  }

  lemma FramesCompose(s: State, t: State, u: State)
    requires SameFrame(s, t) && SameFrame(t, u)
    ensures SameFrame(s, u)
  {
    forall id | id in s.orders ensures SameTerms(s.orders[id], u.orders[id]) {
      assert SameTerms(s.orders[id], t.orders[id]) && SameTerms(t.orders[id], u.orders[id]);
    }
  }

  // ---------------------------------------------------------------- marking

  /** Marking rewrites the equity columns of the account and nothing else. */
  ghost predicate Remarked(s: State, s': State) {
    && s' == s.(account := s'.account)
    && s'.account == s.account.(equity := s'.account.equity, peak := s'.account.peak, drawdown := s'.account.drawdown)
  }

  lemma BookFrame(env: Env, s: State, s': State)
    requires Book(env, s) && s'.orders == s.orders && s'.orderIds == s.orderIds
    requires s'.account.position == s.account.position && |s.decisions| <= |s'.decisions|
    ensures Book(env, s')
  {
    forall id | id in s'.orders ensures Known(env, s', id) {
      assert Known(env, s, id);
    }
  }

  lemma FilledFrame(env: Env, s: State, s': State, now: int, now': int)
    requires FillsInOrder(env, s, now) && s'.orders == s.orders && s'.fills == s.fills && now <= now'
    ensures FillsInOrder(env, s', now')
    ensures forall k :: 0 <= k < |s.fills| ==> s.fills[k].candleIndex <= now
  {
    forall k | 0 <= k < |s'.fills| ensures FillKnown(env, s', s'.fills[k], now') && s.fills[k].candleIndex <= now {
      assert FillKnown(env, s, s.fills[k], now);
    }
  }

  lemma LedgerFrame(env: Env, s: State, s': State)
    requires Ledgered(env, s) && s'.fills == s.fills && s'.ledger == s.ledger
    requires s'.account.cash == s.account.cash && s'.account.position == s.account.position
             && s'.account.fees == s.account.fees
    ensures Ledgered(env, s')
  {
  }

  lemma ClockFrame(env: Env, s: State, s': State, now: int, todo: set<OrderId>)
    requires Clock(env, s, now, todo) && s'.orders == s.orders && s'.fills == s.fills
    ensures Clock(env, s', now, todo)
  {
  }

  lemma DerivedFrame(env: Env, s: State, s': State, now: int)
    requires Derived(env, s, now) && s'.orders == s.orders && s'.fills == s.fills
    requires s'.account.position == s.account.position && s'.account.costBasis == s.account.costBasis
             && s'.account.realizedPnl == s.account.realizedPnl
    ensures Derived(env, s', now)
  {
    hide Derive, AttributedIds, TradeInSegment, SameSegment;
  }

  /** The invariant reads the account's balances, the book, the fills and the ledger, and nothing else. */
  lemma FrameKeeps(env: Env, s: State, s': State, now: int, todo: set<OrderId>)
    requires Inv(env, s, now, todo) && Balanced(env.initialCash, s'.account)
    requires s'.orders == s.orders && s'.orderIds == s.orderIds && s'.fills == s.fills && s'.ledger == s.ledger
    requires s'.account
             == s.account.(equity := s'.account.equity, peak := s'.account.peak, drawdown := s'.account.drawdown)
    requires |s.decisions| <= |s'.decisions|
    ensures Inv(env, s', now, todo)
  {
    hide Balanced, Book, Ledgered, FillsInOrder, Clock, Derived;
    BookFrame(env, s, s');
    LedgerFrame(env, s, s');
    FilledFrame(env, s, s', now, now);
    ClockFrame(env, s, s', now, todo);
    DerivedFrame(env, s, s', now);
  }

  lemma MarkKeeps(env: Env, s: State, now: int, todo: set<OrderId>, candle: Candle)
    requires Inv(env, s, now, todo) && candle.close > 0.0
    ensures var m := Mark(s, candle);
            m.failure.None? && Inv(env, m.state, now, todo) && Remarked(s, m.state)
  {
    MarkKeepsBalance(env.initialCash, s.account, candle.close);
    FrameKeeps(env, s, Mark(s, candle).state, now, todo);
  }

  // ---------------------------------------------------------------- opening a candle

  lemma OpenClock(env: Env, s: State, now: int)
    requires Book(env, s) && Clock(env, s, now - 1, {})
    requires forall k :: 0 <= k < |s.fills| ==> s.fills[k].candleIndex < now
    requires now in env.boundaries ==> !NonCash(s)
    ensures Clock(env, EnterSegment(env, s, now), now, Ids(ActiveIds(s)))
  {
    ActiveIdsKeeps(s);
    hide ActiveIds, Known, OneActivePerSide, SellsCovered, SortIds;
    forall id | id in s.orders && s.orders[id].Active()
      ensures id in Ids(ActiveIds(s)) && now !in env.boundaries
    {
      assert id in ActiveIds(s);
    }
  }

  lemma OpenTrades(env: Env, s: State, now: int)
    requires Derived(env, s, now - 1)
    requires now in env.boundaries ==> !NonCash(s)
    ensures Derived(env, EnterSegment(env, s, now), now)
  {
    hide Derive, AttributedIds, Agree, ActiveIds;
    var d := Derive(s.orders, s.fills).value;
    forall k | 0 <= k < |d.trades| ensures TradeInSegment(env.boundaries, d.trades[k], now) {
      assert TradeInSegment(env.boundaries, d.trades[k], now - 1);
    }
    if now in env.boundaries { FlatHasNoEntry(s.account, d); }
  }

  lemma FlatHasNoEntry(a: Account, d: Derivation)
    requires Agree(a, d) && a.position == 0.0
    ensures d.entryIndex.None?
  {
  }

  lemma OpenCandle(env: Env, s: State, now: int)
    requires Inv(env, s, now - 1, {})
    requires now in env.boundaries ==> !NonCash(s)
    ensures Inv(env, EnterSegment(env, s, now), now, Ids(ActiveIds(s)))
  {
    hide Balanced, Book, Ledgered, FillsInOrder, Clock, Derived, Known, FillKnown;
    var s' := EnterSegment(env, s, now);
    BookFrame(env, s, s');
    FilledFrame(env, s, s', now - 1, now);
    LedgerFrame(env, s, s');
    OpenClock(env, s, now);
    OpenTrades(env, s, now);
  }

  lemma BeforeDecisionKeeps(env: Env, s: State, now: int, candle: Candle)
    requires Inv(env, s, now - 1, {}) && now >= 0 && candle.Valid()
    requires now in env.boundaries ==> !NonCash(s)
    ensures var p := BeforeDecision(env, s, now, candle);
            && (p.failure.None? ==> Inv(env, p.state, now, {}) && p.consumed >= 0.0 && Between(s, p.state))
            && (p.failure.Some? ==> Permitted(env.config, p.failure.value))
  {
    hide EvaluateAll, Balanced, Ledgered, FillsInOrder, Clock, Derived, Known, NonCash, Permitted;
    var entered := EnterSegment(env, s, now);
    OpenCandle(env, s, now);
    ActiveIdsKeeps(entered);
    var ids := SortIds(ActiveIds(entered));
    var todo := Ids(ActiveIds(s));
    assert ActiveIds(entered) == ActiveIds(s);
    assert Ids(ids) == todo;
    EvaluateAllKeeps(env, entered, ids, now, candle, 0.0, None, todo);
    var pass := EvaluateAll(env, entered, ids, now, candle, 0.0, None);
    if pass.failure.None? {
      assert todo - Ids(ids) == {};
      MarkKeeps(env, pass.state, now, {}, candle);
    }
  }

  /** What the first half of a candle leaves alone. */
  ghost predicate Between(s: State, s': State) {
    && s'.decisions == s.decisions && s'.orderIds == s.orderIds && s'.series == s.series
    && s'.lastIndex == s.lastIndex && s'.lastCandle == s.lastCandle && s'.finalized == s.finalized
  }

  // ---------------------------------------------------------------- accepting intents

  lemma {:induction false} RejectAllOnlyRecords(
    s: State, intents: seq<ValidIntent>, index: int, decision: int, sequence: int)
    ensures RejectAll(s, intents, index, decision, sequence)
            == s.(rejections := RejectAll(s, intents, index, decision, sequence).rejections)
    ensures |RejectAll(s, intents, index, decision, sequence).rejections| == |s.rejections| + |intents|
    decreases |intents|
  {
    if intents != [] {
      var rejected := Reject(s, index, decision, sequence, intents[0], ConflictingIntents);
      RejectAllOnlyRecords(rejected, intents[1..], index, decision, sequence + 1);
    }
  }

  lemma {:induction false} EveryIntentHasASide(intents: seq<ValidIntent>)
    ensures CountSide(intents, Buy) + CountSide(intents, SellToClose) == |intents|
  {
    if intents != [] {
      EveryIntentHasASide(intents[1..]);
    }
  }

  /** Bookkeeping outside the invariant's fields keeps it. */
  lemma BookkeepingKeeps(env: Env, s: State, s': State, now: int, todo: set<OrderId>)
    requires Inv(env, s, now, todo)
    requires s'.account == s.account && s'.orders == s.orders && s'.orderIds == s.orderIds
    requires s'.fills == s.fills && s'.ledger == s.ledger && |s.decisions| <= |s'.decisions|
    ensures Inv(env, s', now, todo)
  {
    FrameKeeps(env, s, s', now, todo);
  }

  /** An order the engine is about to add: fresh, on a side with no active order, covered if it sells. */
  ghost predicate Admissible(env: Env, s: State, intent: ValidIntent, now: int, decision: int, sequence: int) {
    && now >= 0 && 1 <= decision <= |s.decisions| && sequence >= 1
    && intent.side !in ActiveSides(s)
    && (intent.side.SellToClose? ==> intent.quantity <= s.account.position)
    && env.digest(decision, sequence) !in s.orders
  }

  lemma AddKeepsBook(env: Env, s: State, intent: ValidIntent, now: int, decision: int, sequence: int)
    requires Book(env, s) && Admissible(env, s, intent, now, decision, sequence)
    ensures Book(env, AddOrder(s, NewOrder(env, intent, now, decision, sequence)))
  {
    var order := NewOrder(env, intent, now, decision, sequence);
    var s' := AddOrder(s, order);
    forall id | id in s'.orders ensures Known(env, s', id) {
      if id in s.orders {
        assert Known(env, s, id);
      }
    }
    forall id | id in s.orders && s.orders[id].Active() ensures s.orders[id].side != intent.side {
      assert s.orders[id].side in ActiveSides(s);
    }
  }

  lemma AddKeepsDerived(env: Env, s: State, order: Order, now: int)
    requires Derived(env, s, now) && order.orderId !in s.orders
    requires forall k :: 0 <= k < |s.fills| ==> s.fills[k].orderId in s.orders
    ensures Derived(env, AddOrder(s, order), now)
  {
    hide Derive, AttributedIds, TradeInSegment, SameSegment, Agree;
    DeriveReadsSides(s.orders, AddOrder(s, order).orders, s.fills);
  }

  lemma AddKeepsFills(env: Env, s: State, order: Order, now: int)
    requires FillsInOrder(env, s, now) && order.orderId !in s.orders && order.filled == 0.0
    ensures FillsInOrder(env, AddOrder(s, order), now)
    ensures forall k :: 0 <= k < |s.fills| ==> s.fills[k].orderId in s.orders
  {
    hide SameSegment, FilledBy;
    var s' := AddOrder(s, order);
    forall k | 0 <= k < |s.fills| ensures FillKnown(env, s', s'.fills[k], now) && s.fills[k].orderId in s.orders {
      assert FillKnown(env, s, s.fills[k], now);
    }
    NoFillsSumToZero(s.fills, order.orderId);
  }

  lemma AddKeepsClock(env: Env, s: State, order: Order, now: int)
    requires Clock(env, s, now, {}) && order.orderId !in s.orders && order.Valid() && order.created == now
    requires forall k :: 0 <= k < |s.fills| ==> s.fills[k].orderId in s.orders
    ensures Clock(env, AddOrder(s, order), now, if order.eligible == now then {order.orderId} else {})
  {
  }

  lemma AddKeeps(env: Env, s: State, intent: ValidIntent, now: int, decision: int, sequence: int)
    requires Inv(env, s, now, {}) && Admissible(env, s, intent, now, decision, sequence)
    ensures var order := NewOrder(env, intent, now, decision, sequence);
            Inv(env, AddOrder(s, order), now, if order.eligible == now then {order.orderId} else {})
  {
    hide Ledgered, FillsInOrder, Derived, Clock, Balanced;
    var order := NewOrder(env, intent, now, decision, sequence);
    AddKeepsBook(env, s, intent, now, decision, sequence);
    AddKeepsFills(env, s, order, now);
    AddKeepsDerived(env, s, order, now);
    AddKeepsClock(env, s, order, now);
    LedgerFrame(env, s, AddOrder(s, order));
  }

  lemma FreshIdentity(env: Env, s: State, decision: int, sequence: int)
    requires Injective(env.digest) && Book(env, s)
    requires forall id :: id in s.orders ==> s.orders[id].decisionSequence < decision
    ensures env.digest(decision, sequence) !in s.orders
  {
    forall id | id in s.orders ensures id != env.digest(decision, sequence) {
      assert Known(env, s, id);
    }
  }

  ghost function AcceptedNow(s: State, accepted: seq<OrderId>, now: int): set<OrderId> {
    set id | id in KeepEligible(s.orders, accepted, now)
  }

  /** The state after one accepted intent, and what is left to evaluate on the same candle. */
  ghost predicate AcceptedInto(env: Env, s: State, a: Acceptance, now: int) {
    && a.failure.None?
    && NoDup(a.accepted)
    && Inv(env, a.state, now, AcceptedNow(a.state, a.accepted, now))
    && a.state.decisions == s.decisions && a.state.series == s.series && a.state.finalized == s.finalized
    && (env.config.timing.NextCandle? ==> AcceptedNow(a.state, a.accepted, now) == {})
  }

  lemma RejectedKeeps(env: Env, s: State, s': State, now: int)
    requires Inv(env, s, now, {}) && s' == s.(rejections := s'.rejections)
    ensures AcceptedInto(env, s, Acceptance(s', [], None), now)
  {
    BookkeepingKeeps(env, s, s', now, {});
    assert AcceptedNow(s', [], now) == {};
  }

  lemma AddedKeeps(env: Env, s: State, intent: ValidIntent, now: int)
    requires Inv(env, s, now, {}) && Admissible(env, s, intent, now, |s.decisions|, 1)
    ensures var order := NewOrder(env, intent, now, |s.decisions|, 1);
            AcceptedInto(env, s, Acceptance(AddOrder(s, order), [order.orderId], None), now)
  {
    hide Inv;
    var order := NewOrder(env, intent, now, |s.decisions|, 1);
    var s' := AddOrder(s, order);
    AddKeeps(env, s, intent, now, |s.decisions|, 1);
    assert KeepEligible(s'.orders, [order.orderId], now) == if order.eligible == now then [order.orderId] else [];
    assert AcceptedNow(s', [order.orderId], now) == if order.eligible == now then {order.orderId} else {};
  }

  lemma AcceptOne(env: Env, s: State, intent: ValidIntent, now: int)
    requires ValidEnv(env) && Inv(env, s, now, {}) && now >= 0 && |s.decisions| >= 1
    requires forall id :: id in s.orders ==> s.orders[id].decisionSequence < |s.decisions|
    ensures AcceptedInto(env, s, AcceptFrom(env, s, [intent], now, |s.decisions|, 1, ActiveSides(s), []), now)
  {
    hide Inv;
    AcceptFromOne(env, s, intent, now, |s.decisions|);
    if RejectionFor(env, s, intent, ActiveSides(s)).Some? {
      var reason := RejectionFor(env, s, intent, ActiveSides(s)).value;
      RejectedKeeps(env, s, Reject(s, now, |s.decisions|, 1, intent, reason), now);
    } else {
      InvHasBook(env, s, now, {});
      FreshIdentity(env, s, |s.decisions|, 1);
      AddedKeeps(env, s, intent, now);
    }
  }

  lemma InvHasBook(env: Env, s: State, now: int, todo: set<OrderId>)
    requires Inv(env, s, now, todo)
    ensures Book(env, s)
  {
  }

  lemma AcceptFromOne(env: Env, s: State, intent: ValidIntent, now: int, decision: int)
    ensures var order := NewOrder(env, intent, now, decision, 1);
            AcceptFrom(env, s, [intent], now, decision, 1, ActiveSides(s), []) ==
            match RejectionFor(env, s, intent, ActiveSides(s))
            case Some(reason) => Acceptance(Reject(s, now, decision, 1, intent, reason), [], None)
            case None =>
              if order.orderId in s.orders then Acceptance(s, [], Some(DuplicateOrderIdentity))
              else Acceptance(AddOrder(s, order), [order.orderId], None)
  {
    assert [intent][1..] == [];
    var order := NewOrder(env, intent, now, decision, 1);
    assert [] + [order.orderId] == [order.orderId];
  }

  /** At most one intent survives the conflict rule, and its order identity is always new. */
  lemma AcceptKeeps(env: Env, s: State, intents: seq<ValidIntent>, now: int)
    requires ValidEnv(env) && Inv(env, s, now, {}) && now >= 0 && |s.decisions| >= 1
    requires forall id :: id in s.orders ==> s.orders[id].decisionSequence < |s.decisions|
    ensures AcceptedInto(env, s, AcceptIntents(env, s, intents, now, |s.decisions|), now)
  {
    hide Inv, RejectAll;
    EveryIntentHasASide(intents);
    if Conflict(intents) {
      RejectAllOnlyRecords(s, intents, now, |s.decisions|, 1);
      RejectedKeeps(env, s, RejectAll(s, intents, now, |s.decisions|, 1), now);
    } else if intents == [] {
      RejectedKeeps(env, s, s, now);
    } else {
      assert intents == [intents[0]];
      AcceptOne(env, s, intents[0], now);
    }
  }

  // ---------------------------------------------------------------- whole candles and whole runs

  lemma SameCloseKeeps(env: Env, s: State, accepted: seq<OrderId>, now: int, candle: Candle, consumed: real)
    requires Inv(env, s, now, AcceptedNow(s, accepted, now)) && now >= 0 && candle.Valid() && consumed >= 0.0
    requires NoDup(accepted)
    requires env.config.timing.NextCandle? ==> AcceptedNow(s, accepted, now) == {}
    ensures var o := SameClose(env, s, accepted, now, candle, consumed);
            && (o.failure.None? ==> Inv(env, o.state, now, {}) && Between(s, o.state))
            && (o.failure.Some? ==> Permitted(env.config, o.failure.value))
  {
    hide EvaluateAll, Inv, Permitted;
    if env.config.timing.SameCloseDiagnostic? {
      KeepEligibleKeeps(s.orders, accepted, now);
      var eligible := KeepEligible(s.orders, accepted, now);
      SortKeeps(eligible);
      var ids := SortIds(eligible);
      var todo := AcceptedNow(s, accepted, now);
      assert Ids(ids) == todo;
      EvaluateAllKeeps(env, s, ids, now, candle, consumed, Some(candle.close), todo);
      var pass := EvaluateAll(env, s, ids, now, candle, consumed, Some(candle.close));
      if pass.failure.None? {
        assert todo - Ids(ids) == {};
        MarkKeeps(env, pass.state, now, {}, candle);
      }
    }
  }

  /** After candle `now` every field agrees that `now` was the last candle. */
  ghost predicate Current(env: Env, s: State, now: int) {
    && Inv(env, s, now, {})
    && s.lastIndex == now && !s.finalized
    && |s.series| == now + 1 && |s.decisions| == now + 1
    && (now >= 0 ==> now < |env.candles| && s.lastCandle == Some(env.candles[now]) && s.series[now] == s.account)
    && (now < 0 ==> s.lastCandle.None?)
  }

  lemma AfterDecisionKeeps(env: Env, s: State, now: int, candle: Candle, consumed: real, intents: seq<ValidIntent>)
    requires ValidEnv(env) && Inv(env, s, now, {}) && 0 <= now < |env.candles| && candle == env.candles[now]
             && consumed >= 0.0
    requires |s.decisions| == now && |s.series| == now && !s.finalized
    ensures var o := AfterDecision(env, s, now, candle, consumed, intents);
            && (o.failure.None? ==> Current(env, o.state, now))
            && (o.failure.Some? ==> Permitted(env.config, o.failure.value))
  {
    hide AcceptIntents, SameClose, Balanced, Ledgered, FillsInOrder, Clock, Derived, Permitted;
    var decided := Decide(s, now, candle, intents);
    forall id | id in decided.orders ensures decided.orders[id].decisionSequence < |decided.decisions| {
      assert Known(env, s, id);
    }
    BookkeepingKeeps(env, s, decided, now, {});
    AcceptKeeps(env, decided, intents, now);
    var a := AcceptIntents(env, decided, intents, now, |decided.decisions|);
    SameCloseKeeps(env, a.state, a.accepted, now, candle, consumed);
    var closed := SameClose(env, a.state, a.accepted, now, candle, consumed);
    if closed.failure.None? {
      BookkeepingKeeps(env, closed.state, Advance(closed.state, now, candle), now, {});
    }
  }

  lemma ProcessKeeps(env: Env, strategy: Strategy, s: State, contexts: seq<Context>, now: int)
    requires ValidEnv(env) && Current(env, s, now - 1) && 0 <= now < |env.candles|
    ensures var o := ProcessCandle(env, strategy, s, contexts, now, env.candles[now]).outcome;
            && (o.failure.None? ==> Current(env, o.state, now))
            && (o.failure.Some? ==> Permitted(env.config, o.failure.value))
  {
    hide Inv, BeforeDecision, AfterDecision, ContextOf, NonCash;
    var candle := env.candles[now];
    if CheckCandle(env, s, now, candle).None? {
      BeforeDecisionKeeps(env, s, now, candle);
      var before := BeforeDecision(env, s, now, candle);
      if before.failure.None? {
        var shown := contexts + [ContextOf(before.state, now, candle)];
        if strategy(shown).Some? {
          AfterDecisionKeeps(env, before.state, now, candle, before.consumed, strategy(shown).value);
        }
      }
    }
  }

  lemma StartIsCurrent(env: Env)
    requires ValidEnv(env)
    ensures Current(env, Start(env), -1)
  {
    InitialIsBalanced(env.initialCash);
  }

  /** Every state a run reaches satisfies the invariant, for any strategy; every early stop is a permitted one. */
  lemma {:induction false} RunKeeps(env: Env, strategy: Strategy, k: nat)
    requires ValidEnv(env) && k <= |env.candles|
    ensures var o := Run(env, strategy, k).outcome;
            && (o.failure.None? ==> Current(env, o.state, k - 1))
            && (o.failure.Some? ==> Permitted(env.config, o.failure.value))
  {
    hide Inv, Current, ProcessCandle, Permitted, Start;
    if k == 0 {
      StartIsCurrent(env);
    } else {
      RunKeeps(env, strategy, k - 1);
      var before := Run(env, strategy, k - 1);
      if before.outcome.failure.None? {
        ProcessKeeps(env, strategy, before.outcome.state, before.contexts, k - 1);
      }
    }
  }
}
