/** What every reachable state of the engine satisfies, group by group, and the steps that keep it. */
module EngineInvariant {
  import opened Wrappers
  import opened Domain
  import opened Simulator
  import opened Accounting
  import opened Trades
  import opened Engine
  import opened Sorting

  // ---------------------------------------------------------------- sorting and filtering order ids

  ghost predicate Ascending(ids: seq<OrderId>) {
    forall i, j :: 0 <= i < j < |ids| ==> ids[i] <= ids[j]
  }

  /** Orders are visited in digest order, each exactly once. */
  lemma SortKeeps(ids: seq<OrderId>)
    requires NoDup(ids)
    ensures Ascending(SortIds(ids)) && NoDup(SortIds(ids))
    ensures forall k :: k in SortIds(ids) <==> k in ids
  {
    var sorted := SortIds(ids);
    SortedSorts(IdAtMost, ids);
    forall i, j | 0 <= i < j < |sorted| ensures sorted[i] <= sorted[j] {
      assert IdAtMost(sorted[i], sorted[j]);
    }
    NoDupReadsMultiset(ids, sorted);
    forall k ensures k in sorted <==> k in ids { SameMultisetSameMembers(sorted, ids, k); }
  }

  lemma {:induction false} KeepActiveKeeps(orders: map<OrderId, Order>, ids: seq<OrderId>)
    requires NoDup(ids)
    ensures NoDup(KeepActive(orders, ids))
    ensures forall k :: k in KeepActive(orders, ids) <==> k in ids && k in orders && orders[k].Active()
  {
    if ids != [] {
      assert ids == [ids[0]] + ids[1..];
      KeepActiveKeeps(orders, ids[1..]);
    }
  }

  lemma {:induction false} KeepEligibleKeeps(orders: map<OrderId, Order>, ids: seq<OrderId>, index: int)
    requires NoDup(ids)
    ensures NoDup(KeepEligible(orders, ids, index))
    ensures forall k :: k in KeepEligible(orders, ids, index) <==>
                        k in ids && k in orders && orders[k].eligible == index
  {
    if ids != [] {
      assert ids == [ids[0]] + ids[1..];
      KeepEligibleKeeps(orders, ids[1..], index);
    }
  }

  lemma ActiveIdsKeeps(s: State)
    requires NoDup(s.orderIds)
    ensures NoDup(ActiveIds(s)) && NoDup(SortIds(ActiveIds(s)))
    ensures forall k :: k in ActiveIds(s) <==> k in s.orderIds && k in s.orders && s.orders[k].Active()
    ensures forall k :: k in SortIds(ActiveIds(s)) <==> k in ActiveIds(s)
  {
    SortKeeps(s.orderIds);
    KeepActiveKeeps(s.orders, SortIds(s.orderIds));
    SortKeeps(ActiveIds(s));
  }

  // ---------------------------------------------------------------- the invariant

  /** SHA-256 never maps two (decision, intent) pairs of one experiment to one identity. */
  ghost predicate Injective(digest: (int, int) -> OrderId) {
    forall d, i, d', i' :: digest(d, i) == digest(d', i') ==> d == d' && i == i'
  }

  /** No boundary is crossed on the way from one candle to another. */
  ghost predicate SameSegment(boundaries: set<int>, from: int, to: int) {
    forall b :: b in boundaries ==> !(from < b <= to)
  }

  ghost predicate Timed(config: Config, o: Order) {
    && o.eligible == o.created + config.latencyBars + (if config.timing.NextCandle? then 1 else 0)
    && o.expiresAfter == (if o.tif.GTC? then o.eligible + config.maxActiveCandles - 1 else o.eligible)
  }

  ghost predicate Known(env: Env, s: State, id: OrderId)
    requires id in s.orders
  {
    var o := s.orders[id];
    && o.orderId == id == env.digest(o.decisionSequence, o.intentSequence)
    && o.decisionSequence <= |s.decisions|
    && o.Valid()
    && Timed(env.config, o)
  }

  /** The book: known orders, at most one active per side, and sells covered by the position. */
  ghost predicate Book(env: Env, s: State) {
    && NoDup(s.orderIds)
    && (forall id :: id in s.orderIds <==> id in s.orders)
    && (forall id :: id in s.orders ==> Known(env, s, id))
    && OneActivePerSide(s.orders)
    && SellsCovered(s)
  }

  ghost predicate OneActivePerSide(orders: map<OrderId, Order>) {
    forall a, b ::
        a in orders && b in orders && orders[a].Active() && orders[b].Active() && orders[a].side == orders[b].side ==>
        a == b
  }

  ghost predicate SellsCovered(s: State) {
    forall id :: id in s.orders && s.orders[id].Active() && s.orders[id].side.SellToClose?
                 ==> s.orders[id].Remaining() <= s.account.position
  }

  /** The k-th ledger entry is numbered k and records the k-th fill. */
  ghost predicate Ledgered(env: Env, s: State) {
    && |s.ledger| == |s.fills|
    && (forall k :: 0 <= k < |s.ledger| ==>
          s.ledger[k].sequence == k + 1 && s.ledger[k].fillId == Some(s.fills[k].fillId))
    && (forall k :: 0 <= k < |s.ledger| ==> EntryReconciles(env.initialCash, s.ledger, k))
    && Balance(env.initialCash, s.ledger) == Totals(s.account.cash, s.account.position, s.account.fees)
  }

  function FilledBy(fills: seq<Fill>, id: OrderId): real {
    if fills == [] then 0.0
    else
      var last := fills[|fills| - 1];
      FilledBy(fills[..|fills| - 1], id) + (if last.orderId == id then last.quantity else 0.0)
  }

  ghost predicate FillKnown(env: Env, s: State, f: Fill, now: int) {
    && f.Valid()
    && f.orderId in s.orders
    && f.fillId == FillId(f.orderId, f.candleIndex, f.quantity, f.fillPrice)
    && s.orders[f.orderId].eligible <= f.candleIndex <= s.orders[f.orderId].expiresAfter
    && f.candleIndex <= now
    && SameSegment(env.boundaries, s.orders[f.orderId].created, f.candleIndex)
  }

  ghost predicate SameFill(f: Fill, g: Fill) {
    f.orderId == g.orderId && f.candleIndex == g.candleIndex
  }

  /** Fills lie in their order's window, an order fills at most once a candle, and quantities add up. */
  ghost predicate FillsInOrder(env: Env, s: State, now: int) {
    && (forall k :: 0 <= k < |s.fills| ==> FillKnown(env, s, s.fills[k], now))
    && (forall i, j :: 0 <= i < j < |s.fills| ==> !SameFill(s.fills[i], s.fills[j]))
    && (forall i, j :: 0 <= i < j < |s.fills| ==> s.fills[i].candleIndex <= s.fills[j].candleIndex)
    && (forall id :: id in s.orders ==> s.orders[id].filled == FilledBy(s.fills, id))
  }

  ghost predicate UnfilledAt(fills: seq<Fill>, id: OrderId, now: int) {
    forall k :: 0 <= k < |fills| ==> !(fills[k].orderId == id && fills[k].candleIndex == now)
  }

  /** Active orders outlive the candle, except those still to be evaluated on it. */
  ghost predicate Clock(env: Env, s: State, now: int, todo: set<OrderId>) {
    forall id :: id in s.orders && s.orders[id].Active() ==>
      && SameSegment(env.boundaries, s.orders[id].created, now)
      && s.orders[id].created <= now
      && if id in todo then s.orders[id].expiresAfter >= now && UnfilledAt(s.fills, id, now)
         else s.orders[id].expiresAfter > now
  }

  ghost predicate TradeInSegment(boundaries: set<int>, t: CompletedTrade, now: int) {
    t.entryIndex <= t.exitIndex <= now && SameSegment(boundaries, t.entryIndex, t.exitIndex)
  }

  /** The trade derivation succeeds, agrees with the account and attributes every fill once. */
  ghost predicate Derived(env: Env, s: State, now: int) {
    && Derive(s.orders, s.fills).Ok?
    && var d := Derive(s.orders, s.fills).value;
    && Agree(s.account, d)
    && AttributedIds(d) == FillIds(s.fills)
    && (d.entryIndex.Some? ==> d.entryIndex.value <= now && SameSegment(env.boundaries, d.entryIndex.value, now))
    && forall k :: 0 <= k < |d.trades| ==> TradeInSegment(env.boundaries, d.trades[k], now)
  }

  ghost predicate Inv(env: Env, s: State, now: int, todo: set<OrderId>) {
    && Balanced(env.initialCash, s.account)
    && Book(env, s)
    && Ledgered(env, s)
    && FillsInOrder(env, s, now)
    && Clock(env, s, now, todo)
    && Derived(env, s, now)
  }

  // ---------------------------------------------------------------- recording one fill

  /** A fill the engine is about to record for an active order of the book. */
  ghost predicate Recordable(
    env: Env, s: State, id: OrderId, now: int, todo: set<OrderId>, e: Evaluation, consumed: real)
  {
    && Inv(env, s, now, todo)
    && now >= 0
    && id in todo && id in s.orders
    && e.Filling?
    && FillOutcome(s.orders[id], s.account, env.config, now, consumed, e)
    && s.account.cash + CashDelta(s.orders[id].side, e.fill) >= 0.0
  }

  lemma RecordKeepsBalance(env: Env, s: State, id: OrderId, now: int, todo: set<OrderId>, e: Evaluation, consumed: real)
    requires Recordable(env, s, id, now, todo, e, consumed)
    ensures ApplyFill(s.account, s.orders[id], e.fill, |s.ledger| + 1)
            == Ok((Updated(s.account, s.orders[id].side, e.fill),
                   Entry(s.account, s.orders[id], e.fill, |s.ledger| + 1)))
    ensures Balanced(env.initialCash, RecordFill(s, s.orders[id], e).account)
  {
    hide Book, Ledgered, Derived, FillsInOrder, Clock;
    FillIsAppliedIffSolvent(env.initialCash, s.account, s.orders[id], e.fill, |s.ledger| + 1);
  }

  lemma RecordKeepsBook(env: Env, s: State, id: OrderId, now: int, todo: set<OrderId>, e: Evaluation, consumed: real)
    requires Recordable(env, s, id, now, todo, e, consumed)
    ensures Book(env, RecordFill(s, s.orders[id], e))
  {
    hide Balanced, Ledgered, FillsInOrder, Clock, Derived;
    var s' := RecordFill(s, s.orders[id], e);
    assert s'.orders.Keys == s.orders.Keys;
    forall k | k in s'.orders ensures Known(env, s', k) {
      assert Known(env, s, k);
    }
  }

  lemma RecordKeepsLedger(env: Env, s: State, id: OrderId, now: int, todo: set<OrderId>, e: Evaluation, consumed: real)
    requires Recordable(env, s, id, now, todo, e, consumed)
    ensures Ledgered(env, RecordFill(s, s.orders[id], e))
  {
    hide Book, FillsInOrder, Clock, Derived;
    var s' := RecordFill(s, s.orders[id], e);
    var n := |s.ledger|;
    assert s'.ledger[..n] == s.ledger && s'.ledger[..n + 1] == s'.ledger;
    forall k | 0 <= k <= n ensures EntryReconciles(env.initialCash, s'.ledger, k) {
      if k < n {
        assert EntryReconciles(env.initialCash, s.ledger, k);
        assert s'.ledger[..k + 1] == s.ledger[..k + 1];
      }
    }
  }

  lemma {:induction false} NoFillsSumToZero(fills: seq<Fill>, id: OrderId)
    requires forall k :: 0 <= k < |fills| ==> fills[k].orderId != id
    ensures FilledBy(fills, id) == 0.0
  {
    if fills != [] {
      NoFillsSumToZero(fills[..|fills| - 1], id);
    }
  }

  lemma RecordKeepsFills(env: Env, s: State, id: OrderId, now: int, todo: set<OrderId>, e: Evaluation, consumed: real)
    requires Recordable(env, s, id, now, todo, e, consumed)
    ensures FillsInOrder(env, RecordFill(s, s.orders[id], e), now)
  {
    hide Balanced, Ledgered, Derived;
    var s' := RecordFill(s, s.orders[id], e);
    var n := |s.fills|;
    assert s'.fills[..n] == s.fills;
    assert Known(env, s, id);
    forall k | 0 <= k <= n ensures FillKnown(env, s', s'.fills[k], now) {
      if k < n {
        assert FillKnown(env, s, s.fills[k], now);
      }
    }
    forall i, j | 0 <= i < j <= n
      ensures !SameFill(s'.fills[i], s'.fills[j]) && s'.fills[i].candleIndex <= s'.fills[j].candleIndex
    {
      if j < n {
        assert !SameFill(s.fills[i], s.fills[j]);
      } else {
        assert FillKnown(env, s, s.fills[i], now);
      }
    }
  }

  lemma DeriveAppends(orders: map<OrderId, Order>, orders': map<OrderId, Order>, fills: seq<Fill>, f: Fill)
    requires f.orderId in orders && orders'.Keys == orders.Keys
    requires forall k :: k in orders ==> orders'[k].side == orders[k].side
    requires forall k :: 0 <= k < |fills| ==> fills[k].orderId in orders
    requires Derive(orders, fills).Ok?
    ensures Derive(orders', fills + [f]) == Step(Derive(orders, fills).value, orders[f.orderId].side, f)
  {
    DeriveReadsSides(orders, orders', fills);
    assert (fills + [f])[..|fills|] == fills;
  }

  lemma StepKeepsTime(boundaries: set<int>, d: Derivation, side: Side, f: Fill, now: int)
    requires Step(d, side, f).Ok? && f.candleIndex == now
    requires d.position == 0.0 ==> d == Flat(d.trades)
    requires d.entryIndex.Some? ==> d.entryIndex.value <= now && SameSegment(boundaries, d.entryIndex.value, now)
    requires forall k :: 0 <= k < |d.trades| ==> TradeInSegment(boundaries, d.trades[k], now)
    ensures var d' := Step(d, side, f).value;
            && (d'.entryIndex.Some? ==> d'.entryIndex.value <= now && SameSegment(boundaries, d'.entryIndex.value, now))
            && forall k :: 0 <= k < |d'.trades| ==> TradeInSegment(boundaries, d'.trades[k], now)
  {
  }

  lemma RecordKeepsTrades(env: Env, s: State, id: OrderId, now: int, e: Evaluation)
    requires Balanced(env.initialCash, s.account) && Derived(env, s, now) && FillsInOrder(env, s, now)
    requires id in s.orders && s.orders[id].orderId == id
    requires e.Filling? && e.order.side == s.orders[id].side
    requires e.fill.Valid() && e.fill.orderId == id && e.fill.candleIndex == now
    requires s.orders[id].side.SellToClose? ==> e.fill.quantity <= s.account.position
    ensures Derived(env, RecordFill(s, s.orders[id], e), now)
  {
    var s' := RecordFill(s, s.orders[id], e);
    var side := s.orders[id].side;
    var d := Derive(s.orders, s.fills).value;
    forall k | 0 <= k < |s.fills| ensures s.fills[k].orderId in s.orders {
      assert FillKnown(env, s, s.fills[k], now);
    }
    DeriveAppends(s.orders, s'.orders, s.fills, e.fill);
    StepAgrees(env.initialCash, s.account, d, side, e.fill);
    StepPartitions(d, side, e.fill);
    StepKeepsTime(env.boundaries, d, side, e.fill, now);
    assert s'.fills[..|s.fills|] == s.fills;
    assert FillIds(s'.fills) == FillIds(s.fills) + multiset{e.fill.fillId};
  }

  /** Clearing the todo mark comes with settling the order; here only the other orders matter. */
  lemma RecordKeepsOthersClock(
    env: Env, s: State, id: OrderId, now: int, todo: set<OrderId>, e: Evaluation, consumed: real)
    requires Recordable(env, s, id, now, todo, e, consumed)
    ensures forall k :: k in s.orders && k != id && s.orders[k].Active() ==>
              && SameSegment(env.boundaries, s.orders[k].created, now)
              && s.orders[k].created <= now
              && if k in todo
                 then s.orders[k].expiresAfter >= now && UnfilledAt(RecordFill(s, s.orders[id], e).fills, k, now)
                 else s.orders[k].expiresAfter > now
  {
    hide Balanced, Ledgered, Derived, FillsInOrder;
    assert Known(env, s, id);
  }

  // ---------------------------------------------------------------- settling one order

  /** `Inv` except that the clock excuses the one order about to be settled. */
  ghost predicate Unsettled(env: Env, s: State, id: OrderId, now: int, todo: set<OrderId>) {
    && id in s.orders
    && Balanced(env.initialCash, s.account)
    && Book(env, s)
    && Ledgered(env, s)
    && FillsInOrder(env, s, now)
    && Derived(env, s, now)
    && Clock(env, s.(orders := s.orders - {id}), now, todo)
    && (s.orders[id].Active() ==> SameSegment(env.boundaries, s.orders[id].created, now) && s.orders[id].created <= now)
  }

  lemma SettledChangesStatusOnly(o: Order, now: int)
    requires o.Valid()
    ensures var o' := Settled(o, now);
            && o'.Valid()
            && o' == o.(status := o'.status)
            && (o'.Active() ==> o' == o && o.expiresAfter > now)
  {
  }

  lemma SettleKeepsBook(env: Env, s: State, id: OrderId, now: int)
    requires id in s.orders && Book(env, s)
    ensures Book(env, SettleOrder(s, id, now))
  {
    var s' := SettleOrder(s, id, now);
    assert Known(env, s, id);
    SettledChangesStatusOnly(s.orders[id], now);
    assert s'.orders.Keys == s.orders.Keys;
    forall k | k in s'.orders ensures Known(env, s', k) {
      assert Known(env, s, k);
    }
  }

  lemma SettleKeepsFills(env: Env, s: State, id: OrderId, now: int)
    requires id in s.orders && s.orders[id].Valid() && FillsInOrder(env, s, now)
    ensures FillsInOrder(env, SettleOrder(s, id, now), now)
  {
    var s' := SettleOrder(s, id, now);
    SettledChangesStatusOnly(s.orders[id], now);
    forall k | 0 <= k < |s.fills| ensures FillKnown(env, s', s'.fills[k], now) {
      assert FillKnown(env, s, s.fills[k], now);
    }
    forall i, j | 0 <= i < j < |s.fills| ensures !SameFill(s'.fills[i], s'.fills[j]) {
      assert !SameFill(s.fills[i], s.fills[j]);
    }
  }

  lemma SettleKeepsTrades(env: Env, s: State, id: OrderId, now: int)
    requires id in s.orders && s.orders[id].Valid() && FillsInOrder(env, s, now) && Derived(env, s, now)
    ensures Derived(env, SettleOrder(s, id, now), now)
  {
    var s' := SettleOrder(s, id, now);
    SettledChangesStatusOnly(s.orders[id], now);
    forall k | 0 <= k < |s.fills| ensures s.fills[k].orderId in s.orders {
      assert FillKnown(env, s, s.fills[k], now);
    }
    DeriveReadsSides(s.orders, s'.orders, s.fills);
  }

  lemma SettleKeepsClock(env: Env, s: State, id: OrderId, now: int, todo: set<OrderId>)
    requires id in s.orders && s.orders[id].Valid()
    requires Clock(env, s.(orders := s.orders - {id}), now, todo)
    requires s.orders[id].Active() ==>
             SameSegment(env.boundaries, s.orders[id].created, now) && s.orders[id].created <= now
    ensures Clock(env, SettleOrder(s, id, now), now, todo - {id})
  {
    var s' := SettleOrder(s, id, now);
    SettledChangesStatusOnly(s.orders[id], now);
    var others := s.orders - {id};
    forall k | k in s'.orders && k != id ensures k in others && others[k] == s'.orders[k] {
    }
  }

  lemma SettleKeepsInvariant(env: Env, s: State, id: OrderId, now: int, todo: set<OrderId>)
    requires Unsettled(env, s, id, now, todo)
    ensures Inv(env, SettleOrder(s, id, now), now, todo - {id})
  {
    hide Derived, FillsInOrder, Clock, Balanced;
    assert Known(env, s, id);
    SettleKeepsBook(env, s, id, now);
    SettleKeepsFills(env, s, id, now);
    SettleKeepsTrades(env, s, id, now);
    SettleKeepsClock(env, s, id, now, todo);
  }
}
