/**
 What the recorded evidence of a run says: the ledger mirrors the fills, fees and costs are their sums, and every
 recorded peak is the highest equity the run had seen.
 */
module Evidence {
  import opened Wrappers
  import opened Domain
  import opened Simulator
  import opened Accounting
  import opened Engine
  import Sorting
  import opened EngineInvariant
  import opened EngineSteps
  import opened EngineTheorems
  import opened CandleSteps
  import opened Intake

  // ---------------------------------------------------------------- one evaluation

  /** One fill of a known order was recorded on this candle, or nothing was. */
  ghost predicate Took(s: State, s': State, index: int) {
    || (s'.account == s.account && s'.fills == s.fills && s'.ledger == s.ledger)
    || exists f :: TookFill(s, s', index, f)
  }

  ghost predicate TookFill(s: State, s': State, index: int, f: Fill) {
    && f.candleIndex == index && f.orderId in s.orders
    && s'.fills == s.fills + [f]
    && s'.ledger == s.ledger + [Entry(s.account, s.orders[f.orderId], f, |s.ledger| + 1)]
    && TakesFill(s.account, s.orders[f.orderId].side, f, s'.account)
  }

  lemma FillingTakes(env: Env, s: State, id: OrderId, now: int, candle: Candle, consumed: real,
                     reference: Option<real>, todo: set<OrderId>, e: Evaluation)
    requires Inv(env, s, now, todo) && id in todo && id in s.orders && now >= 0
    requires s.orders[id].Valid() && s.orders[id].Active() && s.orders[id].orderId == id
    requires Yields(env, s, id, now, candle, consumed, reference, e)
    ensures var p := EvaluateOne(env, s, id, now, candle, consumed, reference);
            p.failure.None? ==> TookFill(s, p.state, now, e.fill)
  {
    hide Book, Ledgered, FillsInOrder, Clock, Derived, EvaluateOrder, ApplyFill, TakesFill;
    var order := s.orders[id];
    FillIsBounded(order, candle, s.account, env.config, now, consumed, reference);
    assert FillOutcome(order, s.account, env.config, now, consumed, e);
    FillIsAppliedIffSolvent(env.initialCash, s.account, order, e.fill, |s.ledger| + 1);
    FillsAtAverageCost(env.initialCash, s.account, order, e.fill, |s.ledger| + 1);
  }

  lemma EvaluateOneTakes(env: Env, s: State, id: OrderId, now: int, candle: Candle, consumed: real,
                         reference: Option<real>, todo: set<OrderId>)
    requires Inv(env, s, now, todo) && id in todo && id in s.orders && now >= 0
    ensures var p := EvaluateOne(env, s, id, now, candle, consumed, reference);
            p.failure.None? ==> Took(s, p.state, now)
  {
    BookKnows(env, s, id, now, todo);
    hide Inv, EvaluateOrder, EvaluateOne, TookFill;
    var order := s.orders[id];
    var r := EvaluateOrder(order, candle, s.account, env.config, now, consumed, reference);
    if order.Active() && r.Ok? && r.value.Filling? {
      FillingTakes(env, s, id, now, candle, consumed, reference, todo, r.value);
    } else {
      NoFillTakesNothing(env, s, id, now, candle, consumed, reference);
    }
  }

  lemma NoFillTakesNothing(env: Env, s: State, id: OrderId, now: int, candle: Candle, consumed: real,
                           reference: Option<real>)
    requires id in s.orders && s.orders[id].Valid()
    requires s.orders[id].Active() ==>
               var r := EvaluateOrder(s.orders[id], candle, s.account, env.config, now, consumed, reference);
               !(r.Ok? && r.value.Filling?)
    ensures var p := EvaluateOne(env, s, id, now, candle, consumed, reference);
            && p.consumed == consumed
            && p.state.account == s.account && p.state.fills == s.fills && p.state.ledger == s.ledger
  {
    hide EvaluateOrder, ApplyFill, Settled;
  }

  // ---------------------------------------------------------------- the ledger and the totals

  /** The k-th ledger entry says what the k-th fill did, on the side of its order. */
  ghost predicate MirrorsFill(s: State, k: int)
    requires 0 <= k < |s.fills| == |s.ledger|
  {
    var f, e := s.fills[k], s.ledger[k];
    && f.orderId in s.orders
    && e.fillId == Some(f.fillId) && e.orderId == f.orderId && e.side == s.orders[f.orderId].side
    && e.sequence == k + 1 && e.feeDelta == f.fee
    && if e.side.Buy? then e.positionDelta == f.quantity && e.cashDelta == -(f.notional + f.fee)
       else e.positionDelta == -f.quantity && e.cashDelta == f.notional - f.fee
  }

  function TotalFees(fills: seq<Fill>): real {
    if fills == [] then 0.0 else TotalFees(fills[..|fills| - 1]) + fills[|fills| - 1].fee
  }

  function TotalCosts(fills: seq<Fill>): real {
    if fills == [] then 0.0
    else TotalCosts(fills[..|fills| - 1]) + fills[|fills| - 1].spreadCost + fills[|fills| - 1].slippageCost
  }

  ghost predicate Mirrored(s: State) {
    && |s.ledger| == |s.fills|
    && (forall k :: 0 <= k < |s.fills| ==> MirrorsFill(s, k))
    && s.account.fees == TotalFees(s.fills)
    && s.account.executionCosts == TotalCosts(s.fills)
  }

  lemma TookKeepsMirror(env: Env, s: State, s': State, index: int)
    requires Mirrored(s) && Took(s, s', index) && TermsKept(s, s')
    requires forall id :: id in s.orders ==> s.orders[id].orderId == id
    ensures Mirrored(s')
  {
    assert s'.fills[..|s.fills|] == s.fills;
    forall k | 0 <= k < |s'.fills| ensures |s'.fills| == |s'.ledger| && MirrorsFill(s', k) {
      if k < |s.fills| { assert MirrorsFill(s, k); }
    }
  }

  // ---------------------------------------------------------------- the peak

  /** Equity right after the k-th fill, at its price. */
  function FillEquity(s: State, k: int): real
    requires 0 <= k < |s.fills| && k < |s.ledger|
  {
    s.ledger[k].resultingCash + s.ledger[k].resultingPosition * s.fills[k].fillPrice
  }

  ghost function FillEquities(s: State): set<real>
    requires |s.ledger| == |s.fills|
  {
    set k | 0 <= k < |s.fills| :: FillEquity(s, k)
  }

  ghost predicate Greatest(peak: real, all: set<real>) {
    peak in all && forall x :: x in all ==> x <= peak
  }

  /** The peak is the greatest of the initial cash, the equities after fills and these other recorded equities. */
  ghost predicate PeakOver(env: Env, s: State, others: set<real>) {
    && |s.ledger| == |s.fills|
    && Greatest(s.account.peak, {env.initialCash} + FillEquities(s) + others)
    && s.account.equity in {env.initialCash} + FillEquities(s) + others
  }

  lemma GreatestGrows(peak: real, all: set<real>, x: real)
    requires Greatest(peak, all)
    ensures Greatest(Max(peak, x), all + {x})
  {
  }

  lemma FillAddsEquity(s: State, s': State, index: int, f: Fill)
    requires |s.ledger| == |s.fills| && TookFill(s, s', index, f)
    ensures |s'.ledger| == |s'.fills| && FillEquities(s') == FillEquities(s) + {s'.account.equity}
  {
    var n := |s.fills|;
    assert FillEquity(s', n) == s'.account.equity;
    forall k | 0 <= k < n ensures FillEquity(s', k) == FillEquity(s, k) {}
    forall x ensures x in FillEquities(s') <==> x in FillEquities(s) + {s'.account.equity} {
      if x in FillEquities(s) {
        var k :| 0 <= k < n && x == FillEquity(s, k);
        assert x == FillEquity(s', k);
      }
    }
  }

  lemma TookKeepsPeak(env: Env, s: State, s': State, index: int, others: set<real>)
    requires PeakOver(env, s, others) && Took(s, s', index)
    ensures PeakOver(env, s', others)
  {
    if s'.fills != s.fills {
      var f :| TookFill(s, s', index, f);
      FillAddsEquity(s, s', index, f);
      var all := {env.initialCash} + FillEquities(s) + others;
      GreatestGrows(s.account.peak, all, s'.account.equity);
      assert {env.initialCash} + FillEquities(s') + others == all + {s'.account.equity};
    } else {
      SameFillEquities(s, s');
    }
  }

  lemma SameFillEquities(s: State, s': State)
    requires |s.ledger| == |s.fills| && s'.fills == s.fills && s'.ledger == s.ledger
    ensures FillEquities(s') == FillEquities(s)
  {
    forall k | 0 <= k < |s.fills| ensures FillEquity(s', k) == FillEquity(s, k) {}
  }

  // ---------------------------------------------------------------- passes over the orders

  /** Fills and ledger only grow, and what is new belongs to this candle. */
  ghost predicate Grows(s: State, s': State, index: int) {
    && s.fills <= s'.fills && s.ledger <= s'.ledger
    && forall k :: |s.fills| <= k < |s'.fills| ==> s'.fills[k].candleIndex == index
  }

  lemma TookGrows(s: State, s': State, index: int)
    requires Took(s, s', index)
    ensures Grows(s, s', index)
  {
  }

  ghost predicate Told(env: Env, s: State, others: set<real>) {
    Mirrored(s) && PeakOver(env, s, others)
  }

  lemma BookIdentifies(env: Env, s: State, now: int, todo: set<OrderId>)
    requires Inv(env, s, now, todo)
    ensures forall id :: id in s.orders ==> s.orders[id].orderId == id
  {
    hide Balanced, Ledgered, FillsInOrder, Clock, Derived;
    forall id | id in s.orders ensures s.orders[id].orderId == id { assert Known(env, s, id); }
  }

  lemma {:induction false} EvaluateAllTells(
    env: Env, s: State, ids: seq<OrderId>, now: int, candle: Candle, consumed: real, reference: Option<real>,
    todo: set<OrderId>, others: set<real>)
    requires Inv(env, s, now, todo) && now >= 0 && candle.Valid() && consumed >= 0.0
    requires Sorting.NoDup(ids) && Ids(ids) <= todo && Ids(ids) <= s.orders.Keys
    requires Told(env, s, others)
    ensures var p := EvaluateAll(env, s, ids, now, candle, consumed, reference);
            p.failure.None? ==> Told(env, p.state, others) && Grows(s, p.state, now)
    decreases |ids|
  {
    hide Inv, EvaluateOne, Mirrored, PeakOver, Took;
    if ids != [] {
      var p := EvaluateOne(env, s, ids[0], now, candle, consumed, reference);
      assert ids[0] in Ids(ids);
      EvaluateOneKeeps(env, s, ids[0], now, candle, consumed, reference, todo);
      if p.failure.None? {
        EvaluateOneTakes(env, s, ids[0], now, candle, consumed, reference, todo);
        EvaluateOneKeepsTerms(env, s, ids[0], now, candle, consumed, reference);
        BookIdentifies(env, s, now, todo);
        TookKeepsMirror(env, s, p.state, now);
        TookKeepsPeak(env, s, p.state, now, others);
        TookGrows(s, p.state, now);
        SplitIds(ids);
        EvaluateAllTells(env, p.state, ids[1..], now, candle, p.consumed, reference, todo - {ids[0]}, others);
      }
    }
  }

  lemma MarkTells(env: Env, s: State, candle: Candle, others: set<real>)
    requires Balanced(env.initialCash, s.account) && candle.close > 0.0 && Told(env, s, others)
    ensures var m := Mark(s, candle);
            && m.failure.None? && MarkedAt(s.account, m.state.account, candle.close)
            && Told(env, m.state, others + {m.state.account.equity}) && Grows(s, m.state, -1)
  {
    MarkIs(env.initialCash, s.account, candle.close);
    var m := Mark(s, candle).state;
    hide Balanced, MarkedAt, MarkToMarket;
    SameFillEquities(s, m);
    forall k | 0 <= k < |m.fills| ensures MirrorsFill(m, k) { assert MirrorsFill(s, k); }
    var all := {env.initialCash} + FillEquities(s) + others;
    GreatestGrows(s.account.peak, all, m.account.equity);
    assert {env.initialCash} + FillEquities(m) + (others + {m.account.equity}) == all + {m.account.equity};
  }

  lemma BeforeDecisionTells(env: Env, s: State, now: int, candle: Candle, others: set<real>)
    requires Inv(env, s, now - 1, {}) && now >= 0 && candle.Valid() && Told(env, s, others)
    requires now in env.boundaries ==> !NonCash(s)
    ensures var p := BeforeDecision(env, s, now, candle);
            p.failure.None? ==>
              && Told(env, p.state, others + {p.state.account.equity}) && Grows(s, p.state, now)
              && exists a :: MarkedAt(a, p.state.account, candle.close)
  {
    hide EvaluateAll, Balanced, Book, Ledgered, FillsInOrder, Clock, Derived, Known, NonCash, Mirrored, PeakOver,
         MarkedAt;
    var entered := EnterSegment(env, s, now);
    OpenCandle(env, s, now);
    BookOf(env, s, now - 1);
    ActiveIdsKeeps(entered);
    var ids := SortIds(ActiveIds(entered));
    var todo := Ids(ActiveIds(s));
    assert ActiveIds(entered) == ActiveIds(s);
    assert Ids(ids) == todo;
    ToldFrame(env, s, entered, others);
    EvaluateAllTells(env, entered, ids, now, candle, 0.0, None, todo, others);
    EvaluateAllKeeps(env, entered, ids, now, candle, 0.0, None, todo);
    var pass := EvaluateAll(env, entered, ids, now, candle, 0.0, None);
    if pass.failure.None? { MarkTells(env, pass.state, candle, others); }
  }

  lemma BookOf(env: Env, s: State, now: int)
    requires Inv(env, s, now, {})
    ensures Sorting.NoDup(s.orderIds) && forall id :: id in s.orderIds <==> id in s.orders
  {
  }

  lemma ToldFrame(env: Env, s: State, s': State, others: set<real>)
    requires Told(env, s, others) && s'.account == s.account && s'.fills == s.fills && s'.ledger == s.ledger
    requires forall id :: id in s.orders ==> id in s'.orders && s'.orders[id].side == s.orders[id].side
    ensures Told(env, s', others)
  {
    SameFillEquities(s, s');
    forall k | 0 <= k < |s'.fills| ensures MirrorsFill(s', k) { assert MirrorsFill(s, k); }
  }

  /** After the second pass the account is marked at the close; without one it is as the decision found it. */
  lemma SameCloseTells(env: Env, s: State, accepted: seq<OrderId>, now: int, candle: Candle, consumed: real,
                       others: set<real>)
    requires Inv(env, s, now, AcceptedNow(s, accepted, now)) && now >= 0 && candle.Valid() && consumed >= 0.0
    requires Sorting.NoDup(accepted) && Told(env, s, others)
    requires env.config.timing.NextCandle? ==> AcceptedNow(s, accepted, now) == {}
    ensures var o := SameClose(env, s, accepted, now, candle, consumed);
            o.failure.None? ==>
              && Told(env, o.state, others + {o.state.account.equity}) && Grows(s, o.state, now)
              && (o.state.account == s.account || exists a :: MarkedAt(a, o.state.account, candle.close))
  {
    hide EvaluateAll, Inv, Mirrored, PeakOver, MarkedAt, MarkToMarket;
    if env.config.timing.SameCloseDiagnostic? {
      KeepEligibleKeeps(s.orders, accepted, now);
      var eligible := KeepEligible(s.orders, accepted, now);
      SortKeeps(eligible);
      var ids := SortIds(eligible);
      var todo := AcceptedNow(s, accepted, now);
      assert Ids(ids) == todo;
      EvaluateAllTells(env, s, ids, now, candle, consumed, Some(candle.close), todo, others);
      EvaluateAllKeeps(env, s, ids, now, candle, consumed, Some(candle.close), todo);
      var pass := EvaluateAll(env, s, ids, now, candle, consumed, Some(candle.close));
      if pass.failure.None? {
        InvIsBalanced(env, pass.state, now, todo - Ids(ids));
        MarkTells(env, pass.state, candle, others);
      }
    } else {
      KnownEquityAddsNothing(env, s, others);
    }
  }

  /** Acceptance writes no evidence of money. */
  lemma AcceptanceTells(env: Env, s: State, intents: seq<ValidIntent>, index: int, others: set<real>)
    requires AcceptIntents(env, s, intents, index, |s.decisions|).failure.None? && Told(env, s, others)
    ensures var a := AcceptIntents(env, s, intents, index, |s.decisions|);
            Told(env, a.state, others) && a.state.fills == s.fills && a.state.ledger == s.ledger
            && a.state.account == s.account && a.state.series == s.series
  {
    var a := AcceptIntents(env, s, intents, index, |s.decisions|);
    AcceptanceAnswers(env, s, intents, index);
    hide AcceptIntents, Mirrored, PeakOver, Admits, Refusals;
    ToldFrame(env, s, a.state, others);
  }

  lemma InvIsBalanced(env: Env, s: State, now: int, todo: set<OrderId>)
    requires Inv(env, s, now, todo)
    ensures Balanced(env.initialCash, s.account)
  {
  }

  lemma KnownEquityAddsNothing(env: Env, s: State, others: set<real>)
    requires Told(env, s, others)
    ensures Told(env, s, others + {s.account.equity})
  {
    hide Mirrored;
    var all := {env.initialCash} + FillEquities(s) + others;
    assert {env.initialCash} + FillEquities(s) + (others + {s.account.equity}) == all;
  }

  // ---------------------------------------------------------------- whole runs

  ghost function SeriesEquities(series: seq<Account>): set<real> {
    set j | 0 <= j < |series| :: series[j].equity
  }

  ghost function ShownEquities(contexts: seq<Context>): set<real> {
    set j | 0 <= j < |contexts| :: contexts[j].account.equity
  }

  lemma SeriesGrows(series: seq<Account>, a: Account)
    ensures SeriesEquities(series + [a]) == SeriesEquities(series) + {a.equity}
  {
    var longer := series + [a];
    assert longer[|series|] == a;
    forall x ensures x in SeriesEquities(longer) <==> x in SeriesEquities(series) + {a.equity} {
      if x in SeriesEquities(series) {
        var j :| 0 <= j < |series| && series[j].equity == x;
        assert longer[j].equity == x;
      }
    }
  }

  lemma ShownGrows(contexts: seq<Context>, c: Context)
    ensures ShownEquities(contexts + [c]) == ShownEquities(contexts) + {c.account.equity}
  {
    var longer := contexts + [c];
    assert longer[|contexts|] == c;
    forall x ensures x in ShownEquities(longer) <==> x in ShownEquities(contexts) + {c.account.equity} {
      if x in ShownEquities(contexts) {
        var j :| 0 <= j < |contexts| && contexts[j].account.equity == x;
        assert longer[j].account.equity == x;
      }
    }
  }

  /** The k-th candle's record: the account marked at its close, and what the strategy was shown of it. */
  ghost predicate CandleRecorded(env: Env, s: State, contexts: seq<Context>, k: int)
    requires 0 <= k < |s.series| && k < |contexts| && k < |env.candles|
  {
    && (exists a :: MarkedAt(a, s.series[k], env.candles[k].close))
    && (exists a :: MarkedAt(a, contexts[k].account, env.candles[k].close))
    && contexts[k].candleIndex == k && contexts[k].candle == env.candles[k]
  }

  ghost predicate AllRecorded(env: Env, s: State, contexts: seq<Context>, k: nat) {
    && k <= |env.candles| && |s.series| == k && |contexts| == k
    && forall j :: 0 <= j < k ==> CandleRecorded(env, s, contexts, j)
  }

  lemma RecordGrows(env: Env, s: State, contexts: seq<Context>, k: nat, t: State, c: Context)
    requires AllRecorded(env, s, contexts, k) && k < |env.candles|
    requires t.series == s.series + [t.account]
    requires exists a :: MarkedAt(a, t.account, env.candles[k].close)
    requires exists a :: MarkedAt(a, c.account, env.candles[k].close)
    requires c.candleIndex == k && c.candle == env.candles[k]
    ensures AllRecorded(env, t, contexts + [c], k + 1)
  {
    hide MarkedAt;
    var longer := contexts + [c];
    assert t.series[k] == t.account && longer[k] == c;
    forall j | 0 <= j < k + 1 ensures CandleRecorded(env, t, longer, j) {
      if j < k {
        assert CandleRecorded(env, s, contexts, j);
        assert t.series[j] == s.series[j] && longer[j] == contexts[j];
      }
    }
  }

  /**
   For every run: the ledger mirrors the fills, fees and execution costs are their sums, every recorded account is
   marked at its candle's close, and the current peak is the highest equity recorded anywhere.
   */
  lemma {:induction false} RunTells(env: Env, strategy: Strategy, k: nat, s: State)
    requires Reached(env, strategy, k, s)
    ensures var contexts := Run(env, strategy, k).contexts;
            && AllRecorded(env, s, contexts, k)
            && Told(env, s, SeriesEquities(s.series) + ShownEquities(contexts))
    decreases k, 1
  {
    hide Run, Told, AllRecorded, BeforeDecision, AcceptIntents, SameClose, CheckCandle, Inv, MarkedAt;
    if k == 0 {
      StartTells(env, strategy, s);
    } else {
      var parts := LastCandle(env, strategy, k, s);
      RunTells(env, strategy, k - 1, parts.start);
      CandleTells(env, strategy, k, s, parts);
    }
  }

  lemma StartTells(env: Env, strategy: Strategy, s: State)
    requires Reached(env, strategy, 0, s)
    ensures var contexts := Run(env, strategy, 0).contexts;
            && AllRecorded(env, s, contexts, 0)
            && Told(env, s, SeriesEquities(s.series) + ShownEquities(contexts))
  {
  }

  lemma CandleTells(env: Env, strategy: Strategy, k: nat, s: State, parts: Parts)
    requires Reached(env, strategy, k, s) && k > 0
    requires Reached(env, strategy, k - 1, parts.start) && IsCandle(env, k - 1, parts, s)
    requires Run(env, strategy, k).contexts
             == Run(env, strategy, k - 1).contexts + [ContextOf(parts.before.state, k - 1, env.candles[k - 1])]
    requires var contexts := Run(env, strategy, k - 1).contexts;
             && AllRecorded(env, parts.start, contexts, k - 1)
             && Told(env, parts.start, SeriesEquities(parts.start.series) + ShownEquities(contexts))
    ensures var contexts := Run(env, strategy, k).contexts;
            && AllRecorded(env, s, contexts, k)
            && Told(env, s, SeriesEquities(s.series) + ShownEquities(contexts))
            && Grows(parts.start, s, k - 1) && s.series == parts.start.series + [s.account]
  {
    hide Run, Told, AllRecorded, BeforeDecision, AcceptIntents, SameClose, Inv, MarkedAt, NonCash;
    var candle, contexts := env.candles[k - 1], Run(env, strategy, k - 1).contexts;
    var others := SeriesEquities(parts.start.series) + ShownEquities(contexts);
    PartsKeep(env, strategy, k, s, parts);
    BeforeDecisionTells(env, parts.start, k - 1, candle, others);
    var p, a, c := parts.before.state, parts.accepted, parts.closed.state;
    var context := ContextOf(p, k - 1, candle);
    ToldFrame(env, p, parts.decided, others + {p.account.equity});
    AcceptanceTells(env, parts.decided, parts.intents, k - 1, others + {p.account.equity});
    SameCloseTells(env, a.state, a.accepted, k - 1, candle, parts.before.consumed, others + {p.account.equity});
    SameCloseKeeps(env, a.state, a.accepted, k - 1, candle, parts.before.consumed);
    assert s.series == parts.start.series + [c.account];
    SeriesGrows(parts.start.series, c.account);
    ShownGrows(contexts, context);
    assert others + {p.account.equity} + {c.account.equity}
           == SeriesEquities(s.series) + ShownEquities(contexts + [context]);
    ToldFrame(env, c, s, SeriesEquities(s.series) + ShownEquities(contexts + [context]));
    RecordGrows(env, parts.start, contexts, k - 1, s, context);
  }

  // ---------------------------------------------------------------- every recorded peak

  /** The run after j candles is the beginning of the run after k: later candles only append. */
  ghost predicate Begins(env: Env, strategy: Strategy, j: nat, k: nat, early: State, s: State)
    requires j <= k <= |env.candles|
  {
    && early.series <= s.series && early.fills <= s.fills && early.ledger <= s.ledger
    && (forall i :: |early.fills| <= i < |s.fills| ==> s.fills[i].candleIndex >= j)
    && Run(env, strategy, j).contexts <= Run(env, strategy, k).contexts
  }

  lemma {:induction false} RunsBegin(env: Env, strategy: Strategy, j: nat, k: nat, s: State) returns (early: State)
    requires Reached(env, strategy, k, s) && j <= k
    ensures Reached(env, strategy, j, early) && Begins(env, strategy, j, k, early, s)
    ensures j == k ==> early == s
    decreases k
  {
    hide Run, Told, AllRecorded, IsCandle, Inv;
    if j == k {
      early := s;
    } else {
      var parts := LastCandle(env, strategy, k, s);
      RunTells(env, strategy, k - 1, parts.start);
      CandleTells(env, strategy, k, s, parts);
      early := RunsBegin(env, strategy, j, k - 1, parts.start);
    }
  }

  ghost function FillEquitiesUpTo(s: State, j: int): set<real>
    requires |s.ledger| == |s.fills|
  {
    set i | 0 <= i < |s.fills| && s.fills[i].candleIndex <= j :: FillEquity(s, i)
  }

  lemma EarlyFillEquities(early: State, s: State, j: int)
    requires |early.ledger| == |early.fills| && |s.ledger| == |s.fills|
    requires early.fills <= s.fills && early.ledger <= s.ledger
    requires forall i :: 0 <= i < |early.fills| ==> early.fills[i].candleIndex <= j
    requires forall i :: |early.fills| <= i < |s.fills| ==> s.fills[i].candleIndex > j
    ensures FillEquities(early) == FillEquitiesUpTo(s, j)
  {
    forall i | 0 <= i < |early.fills| ensures FillEquity(early, i) == FillEquity(s, i) {}
    forall x ensures x in FillEquities(early) <==> x in FillEquitiesUpTo(s, j) {
      if x in FillEquities(early) {
        var i :| 0 <= i < |early.fills| && x == FillEquity(early, i);
        assert s.fills[i].candleIndex <= j && x == FillEquity(s, i);
      }
      if x in FillEquitiesUpTo(s, j) {
        var i :| 0 <= i < |s.fills| && s.fills[i].candleIndex <= j && x == FillEquity(s, i);
        assert x == FillEquity(early, i);
      }
    }
  }

  lemma FillsAreEarly(env: Env, s: State, now: int)
    requires Inv(env, s, now, {})
    ensures |s.ledger| == |s.fills| && forall i :: 0 <= i < |s.fills| ==> s.fills[i].candleIndex <= now
  {
    hide Balanced, Book, Clock, Derived;
    forall i | 0 <= i < |s.fills| ensures s.fills[i].candleIndex <= now { assert FillKnown(env, s, s.fills[i], now); }
  }

  /**
   Every peak a run records is the highest of the initial cash and every equity up to that candle: after each fill,
   at each close the strategy was shown, and at the end of each candle. Equity is cash plus the position at the
   close, and drawdown the loss from that peak.
   */
  lemma RecordedPeaks(env: Env, strategy: Strategy, k: nat, s: State, j: nat)
    requires Reached(env, strategy, k, s) && j < k
    ensures |s.series| == k && |Run(env, strategy, k).contexts| == k && |s.ledger| == |s.fills|
    ensures var a := s.series[j];
            && a.equity == a.cash + a.position * env.candles[j].close
            && a.drawdown * a.peak == a.peak - a.equity
            && Greatest(a.peak, {env.initialCash} + FillEquitiesUpTo(s, j)
                                + (SeriesEquities(s.series[..j + 1])
                                   + ShownEquities(Run(env, strategy, k).contexts[..j + 1])))
  {
    hide Run, FillEquities, FillEquitiesUpTo, SeriesEquities, ShownEquities, Greatest, Inv, IsCandle, Mirrored;
    var early := RunsBegin(env, strategy, j + 1, k, s);
    RunTells(env, strategy, j + 1, early);
    RunTells(env, strategy, k, s);
    ReachedKeeps(env, strategy, j + 1, early);
    ReachedKeeps(env, strategy, k, s);
    FillsAreEarly(env, early, j);
    FillsAreEarly(env, s, k - 1);
    EarlyFillEquities(early, s, j);
    assert early.series[j] == early.account == s.series[j] && early.series == s.series[..j + 1];
    assert CandleRecorded(env, early, Run(env, strategy, j + 1).contexts, j);
    assert Run(env, strategy, j + 1).contexts == Run(env, strategy, k).contexts[..j + 1];
  }

  /** The ledger of every run mirrors its fills, and the account's fees and execution costs are their sums. */
  lemma LedgerMirrorsFills(env: Env, strategy: Strategy, k: nat, s: State)
    requires Reached(env, strategy, k, s)
    ensures |s.ledger| == |s.fills| && forall i :: 0 <= i < |s.fills| ==> MirrorsFill(s, i)
    ensures s.account.fees == TotalFees(s.fills) && s.account.executionCosts == TotalCosts(s.fills)
  {
    hide Run, AllRecorded, PeakOver;
    RunTells(env, strategy, k, s);
  }

  /** The strategy is shown each candle once, in order, with the account marked at its close. */
  lemma StrategySeesMarkedCandles(env: Env, strategy: Strategy, k: nat, s: State, j: nat)
    requires Reached(env, strategy, k, s) && j < k
    ensures |Run(env, strategy, k).contexts| == k
    ensures var c := Run(env, strategy, k).contexts[j];
            && c.candleIndex == j && c.candle == env.candles[j]
            && c.account.equity == c.account.cash + c.account.position * c.candle.close
            && c.account.drawdown * c.account.peak == c.account.peak - c.account.equity
  {
    hide Run, Told;
    RunTells(env, strategy, k, s);
    assert CandleRecorded(env, s, Run(env, strategy, k).contexts, j);
  }
}
