/**
 A run that overdraws: with a taker fee above 100% one purchase with all the cash and one sale stop the engine
 on a negative balance, so the bound on fee rates is needed.
 */
module OverdrawnRun {
  import opened Wrappers
  import opened Domain
  import opened Simulator
  import opened Accounting
  import opened Engine
  import EngineInvariant
  import EngineSteps
  import EngineTheorems
  import Sorting

  const BUY: ValidIntent := Intent(Buy, Market, 1.0, None, BAR)
  const SELL: ValidIntent := Intent(SellToClose, Market, 1.0, None, BAR)

  function Costly(rate: real): Config {
    Config(0.0, rate, 0.0, 0.0, 0, 1.0, 1.0, 1.0, 1.0, 1.0, 1, NextCandle, Conservative)
  }

  function Flat(index: int): Candle {
    Candle("X", H1, index, index + 1, 1.0, 1.0, 1.0, 1.0, 1.0, true)
  }

  function World(rate: real, digest: (int, int) -> OrderId): Env
    requires Costly(rate).Valid()
  {
    Env(Costly(rate), 1.0 + rate, "X", H1, [Flat(0), Flat(1), Flat(2)], {}, digest)
  }

  /** Buys on the first candle and sells on the second. */
  function Answer(shown: seq<Context>): Option<seq<ValidIntent>> {
    if |shown| == 1 then Some([BUY]) else if |shown| == 2 then Some([SELL]) else Some([])
  }

  function Bought(digest: (int, int) -> OrderId): Order {
    Order(digest(1, 1), 1, 1, 0, 1, 1, Buy, Market, 1.0, 0.0, None, BAR, Accepted)
  }

  function Spent(digest: (int, int) -> OrderId): Order {
    Bought(digest).(filled := 1.0, status := Filled)
  }

  function Sold(digest: (int, int) -> OrderId): Order {
    Order(digest(2, 1), 2, 1, 1, 2, 2, SellToClose, Market, 1.0, 0.0, None, BAR, Accepted)
  }

  /** The state after `n` candles, as far as the next one reads it. */
  ghost predicate After(s: State, n: nat, cash: real, position: real, orders: map<OrderId, Order>, ids: seq<OrderId>) {
    && s.account.cash == cash && s.account.position == position
    && s.orders == orders && s.orderIds == ids
    && |s.decisions| == n && |s.series| == n && s.lastIndex == n - 1 && !s.finalized
  }

  // ---------------------------------------------------------------- evaluating one order on a flat candle

  lemma FloorOfOne()
    ensures FloorTo(1.0, 1.0) == 1.0 && FloorTo(-1.0, 1.0) == -1.0
  {
  }

  lemma PriceIsOne(order: Order, config: ValidConfig)
    requires order.limitPrice.None? && config.halfSpreadBps == 0.0 && config.slippageBps == 0.0
             && config.priceTick == 1.0
    ensures FillPrice(order, 1.0, config) == Ok(1.0)
  {
    FloorOfOne();
  }

  lemma OneUnitAffordable(rate: real)
    requires rate >= 0.0
    ensures Affordable(1.0 + rate, 1.0, rate) == 1.0
  {
    var unit := 1.0 * (1.0 + rate);
    assert unit == 1.0 + rate;
  }

  function UnitFill(order: Order, rate: real, index: int): Fill {
    Fill(FillId(order.orderId, index, 1.0, 1.0), order.orderId, index, index, 1.0, 1.0, 1.0, 1.0, rate, 0.0, 0.0,
        false, false)
  }

  lemma UnitFills(order: Order, rate: real, account: Account, index: int)
    requires Costly(rate).Valid() && order.Valid() && order.Active() && order.orderType.Market?
             && order.requested == 1.0
    requires order.filled == 0.0 && order.eligible == index == order.expiresAfter
    requires order.side.Buy? ==> account.cash == 1.0 + rate
    requires order.side.SellToClose? ==> account.position == 1.0
    ensures EvaluateOrder(order, Flat(index), account, Costly(rate), index, 0.0, None)
            == Ok(Filling(order.(filled := 1.0, status := Filled), UnitFill(order, rate, index), 1.0))
  {
    PriceIsOne(order, Costly(rate));
    FloorOfOne();
    OneUnitAffordable(rate);
    hide FloorTo, Affordable;
    assert Candidate(order, Flat(index), account, Costly(rate), 0.0, 1.0) == 1.0;
  }

  // ---------------------------------------------------------------- the three candles

  lemma WorldIsValid(rate: real, digest: (int, int) -> OrderId)
    requires Costly(rate).Valid() && EngineInvariant.Injective(digest)
    ensures EngineSteps.ValidEnv(World(rate, digest))
  {
  }

  /** A marked account keeps its balances. */
  lemma MarkKeepsBalances(initial: real, s: State, index: int)
    requires Balanced(initial, s.account)
    ensures Mark(s, Flat(index)).failure.None?
    ensures var m := Mark(s, Flat(index)).state;
            && m == s.(account := m.account) && m.account.cash == s.account.cash
            && m.account.position == s.account.position
            && Balanced(initial, m.account)
  {
    MarkKeepsBalance(initial, s.account, 1.0);
  }

  /** With no order active, what precedes the decision is the mark alone. */
  lemma QuietOpening(env: Env, s: State, index: int)
    requires env.boundaries == {} && ActiveIds(s) == [] && Balanced(env.initialCash, s.account)
    ensures var p := BeforeDecision(env, s, index, Flat(index));
            && p.failure.None? && p.consumed == 0.0
            && p.state == s.(account := p.state.account) && p.state.account.cash == s.account.cash
            && p.state.account.position == s.account.position && Balanced(env.initialCash, p.state.account)
  {
    MarkKeepsBalances(env.initialCash, s, index);
  }

  /** One acceptable intent and nothing active: exactly its order is added. */
  lemma OneAcceptance(env: Env, s: State, intent: ValidIntent, index: int)
    requires ActiveSides(s) == {} && intent.orderType.Market? && intent.quantity >= env.config.minQuantity
    requires intent.side.SellToClose? ==> intent.quantity <= s.account.position
    requires NewOrder(env, intent, index, |s.decisions|, 1).orderId !in s.orders
    ensures var order := NewOrder(env, intent, index, |s.decisions|, 1);
            AcceptIntents(env, s, [intent], index, |s.decisions|)
                == Acceptance(AddOrder(s, order), [order.orderId], None)
  {
    EngineSteps.AcceptFromOne(env, s, intent, index, |s.decisions|);
    assert [intent][1..] == [];
    assert CountSide([intent], Buy) + CountSide([intent], SellToClose) == 1;
  }

  lemma OnlyMember(ids: seq<OrderId>, id: OrderId)
    requires Sorting.NoDup(ids) && forall k :: k in ids <==> k == id
    ensures ids == [id]
  {
    assert id in ids;
    forall k | 0 <= k < |ids| ensures ids[k] == id { assert ids[k] in ids; }
    var first, last := ids[0], ids[|ids| - 1];
    assert |ids| == 1;
  }

  /** The one active order is what the first pass evaluates. */
  lemma OneActive(s: State, id: OrderId)
    requires Sorting.NoDup(s.orderIds) && id in s.orderIds
    requires forall k :: k in s.orders && s.orders[k].Active() <==> k == id
    ensures ActiveIds(s) == [id] && SortIds(ActiveIds(s)) == [id]
  {
    EngineInvariant.ActiveIdsKeeps(s);
    OnlyMember(ActiveIds(s), id);
    OnlyMember(SortIds(ActiveIds(s)), id);
  }

  lemma FirstCandle(rate: real, digest: (int, int) -> OrderId)
    requires Costly(rate).Valid() && EngineInvariant.Injective(digest)
    ensures var t := ProcessCandle(World(rate, digest), Answer, Start(World(rate, digest)), [], 0, Flat(0));
            && t.outcome.failure.None? && |t.contexts| == 1
            && After(t.outcome.state, 1, 1.0 + rate, 0.0, map[digest(1, 1) := Bought(digest)], [digest(1, 1)])
            && Balanced(1.0 + rate, t.outcome.state.account)
  {
    hide Mark, BeforeDecision, AcceptIntents, Balanced;
    var env := World(rate, digest);
    var start := Start(env);
    InitialIsBalanced(1.0 + rate);
    QuietOpening(env, start, 0);
    var before := BeforeDecision(env, start, 0, Flat(0)).state;
    var decided := Decide(before, 0, Flat(0), [BUY]);
    assert ActiveSides(decided) == {};
    OneAcceptance(env, decided, BUY, 0);
    assert NewOrder(env, BUY, 0, 1, 1) == Bought(digest);
    assert map[][digest(1, 1) := Bought(digest)] == map[digest(1, 1) := Bought(digest)];
  }

  /** An active order alone in the first pass fills its one unit, if the account can take the fill. */
  lemma OneFill(env: Env, s: State, id: OrderId, rate: real, index: int)
    requires env.config == Costly(rate) && Costly(rate).Valid() && Balanced(env.initialCash, s.account)
    requires id in s.orders && s.orders[id].orderId == id && s.orders[id].Valid() && s.orders[id].Active()
    requires s.orders[id].orderType.Market? && s.orders[id].requested == 1.0 && s.orders[id].filled == 0.0
    requires s.orders[id].eligible == index == s.orders[id].expiresAfter
    requires s.orders[id].side.Buy? ==> s.account.cash == 1.0 + rate
    requires s.orders[id].side.SellToClose? ==> s.account.position == 1.0
    ensures var p := EvaluateOne(env, s, id, index, Flat(index), 0.0, None);
            var cash := s.account.cash + if s.orders[id].side.Buy? then -(1.0 + rate) else 1.0 - rate;
            var position := s.account.position + if s.orders[id].side.Buy? then 1.0 else -1.0;
            if cash < 0.0 then p.failure == Some(Books(NegativeBalance))
            else
              && p.failure.None?
              && p.state == s.(account := p.state.account, fills := p.state.fills, ledger := p.state.ledger,
                               orders := s.orders[id := s.orders[id].(filled := 1.0, status := Filled)])
              && p.state.account.cash == cash && p.state.account.position == position
              && Balanced(env.initialCash, p.state.account)
  {
    var order := s.orders[id];
    UnitFills(order, rate, s.account, index);
    var fill := UnitFill(order, rate, index);
    FillIsAppliedIffSolvent(env.initialCash, s.account, order, fill, |s.ledger| + 1);
    hide EvaluateOrder, ApplyFill, Balanced;
    var filled := order.(filled := 1.0, status := Filled);
    assert s.orders[id := filled][id := filled] == s.orders[id := filled];
  }

  /** With one active order, what precedes the decision is its evaluation and the mark. */
  lemma OneOpening(env: Env, s: State, id: OrderId, index: int)
    requires env.boundaries == {} && SortIds(ActiveIds(s)) == [id]
    ensures var one := EvaluateOne(env, s, id, index, Flat(index), 0.0, None);
            BeforeDecision(env, s, index, Flat(index)) ==
            if one.failure.Some? then one
            else Pass(Mark(one.state, Flat(index)).state, one.consumed, Mark(one.state, Flat(index)).failure)
  {
    hide EvaluateOne, Mark, SortIds, ActiveIds;
    assert EnterSegment(env, s, index) == s;
    var one := EvaluateOne(env, s, id, index, Flat(index), 0.0, None);
    assert [id][1..] == [];
    assert EvaluateAll(env, one.state, [], index, Flat(index), one.consumed, None)
        == Pass(one.state, one.consumed, None);
    assert EvaluateAll(env, s, [id], index, Flat(index), 0.0, None) == one;
  }

  lemma SecondCandle(rate: real, digest: (int, int) -> OrderId, s: State, shown: seq<Context>)
    requires Costly(rate).Valid() && EngineInvariant.Injective(digest) && |shown| == 1
    requires After(s, 1, 1.0 + rate, 0.0, map[digest(1, 1) := Bought(digest)], [digest(1, 1)])
    requires Balanced(1.0 + rate, s.account)
    ensures var t := ProcessCandle(World(rate, digest), Answer, s, shown, 1, Flat(1));
            && t.outcome.failure.None? && |t.contexts| == 2
            && After(t.outcome.state, 2, 0.0, 1.0, map[digest(1, 1) := Spent(digest), digest(2, 1) := Sold(digest)],
                     [digest(1, 1), digest(2, 1)])
            && Balanced(1.0 + rate, t.outcome.state.account)
  {
    hide Mark, EvaluateOne, AcceptIntents, Balanced, SortIds, ActiveIds;
    var env := World(rate, digest);
    var id := digest(1, 1);
    OneActive(s, id);
    OneFill(env, s, id, rate, 1);
    var filled := EvaluateOne(env, s, id, 1, Flat(1), 0.0, None).state;
    OneOpening(env, s, id, 1);
    MarkKeepsBalances(1.0 + rate, filled, 1);
    var before := BeforeDecision(env, s, 1, Flat(1)).state;
    var decided := Decide(before, 1, Flat(1), [SELL]);
    assert ActiveSides(decided) == {};
    OneAcceptance(env, decided, SELL, 1);
    assert NewOrder(env, SELL, 1, 2, 1) == Sold(digest);
  }

  lemma ThirdCandle(rate: real, digest: (int, int) -> OrderId, s: State, shown: seq<Context>)
    requires Costly(rate).Valid() && rate > 1.0 && EngineInvariant.Injective(digest)
    requires After(s, 2, 0.0, 1.0, map[digest(1, 1) := Spent(digest), digest(2, 1) := Sold(digest)],
                   [digest(1, 1), digest(2, 1)])
    requires Balanced(1.0 + rate, s.account)
    ensures ProcessCandle(World(rate, digest), Answer, s, shown, 2, Flat(2)).outcome.failure
            == Some(Books(NegativeBalance))
  {
    hide EvaluateOne, Balanced, SortIds, ActiveIds;
    var env := World(rate, digest);
    var id := digest(2, 1);
    OneActive(s, id);
    OneFill(env, s, id, rate, 2);
    OneOpening(env, s, id, 2);
  }

  /** For every taker fee above 100% there is a dataset and a strategy whose run overdraws the account. */
  lemma OverdrawnRunStops(rate: real, digest: (int, int) -> OrderId)
    requires rate > 1.0 && EngineInvariant.Injective(digest)
    ensures EngineSteps.ValidEnv(World(rate, digest)) && World(rate, digest).config.takerFeeRate == rate
    ensures Run(World(rate, digest), Answer, 3).outcome.failure == Some(Books(NegativeBalance))
  {
    hide ProcessCandle, After, Start, Balanced;
    var env := World(rate, digest);
    WorldIsValid(rate, digest);
    FirstCandle(rate, digest);
    var one := Run(env, Answer, 1);
    assert Run(env, Answer, 0) == Trace(Outcome(Start(env), None), []);
    SecondCandle(rate, digest, one.outcome.state, one.contexts);
    var two := Run(env, Answer, 2);
    ThirdCandle(rate, digest, two.outcome.state, two.contexts);
  }

  /** Every run of every dataset, under one configuration, keeps its books. */
  ghost predicate KeepsBooks(env: Env, strategy: Strategy, k: nat) {
    EngineSteps.ValidEnv(env) && k <= |env.candles| ==>
      (Run(env, strategy, k).outcome.failure.Some? ==> !Run(env, strategy, k).outcome.failure.value.Books?)
  }

  /** At most this taker fee, any maker fee up to it: no dataset and no strategy can make the books raise. */
  ghost predicate NeverOverdraws(rate: real) {
    forall env: Env, strategy: Strategy, k: nat ::
      env.config.takerFeeRate == rate && env.config.makerFeeRate <= rate ==> KeepsBooks(env, strategy, k)
  }

  lemma BooksHoldUpToOne(rate: real, env: Env, strategy: Strategy, k: nat)
    requires rate <= 1.0 && env.config.takerFeeRate == rate && env.config.makerFeeRate <= rate
    ensures KeepsBooks(env, strategy, k)
  {
    hide Run;
    if EngineSteps.ValidEnv(env) && k <= |env.candles| { EngineTheorems.BooksNeverRaise(env, strategy, k); }
  }

  /** The engine's books are safe under a taker fee in every run if and only if the fee is at most 100%. */
  lemma BooksAreSafeIffFeeAtMostOne(rate: real, digest: (int, int) -> OrderId)
    requires rate >= 0.0 && EngineInvariant.Injective(digest)
    ensures NeverOverdraws(rate) <==> rate <= 1.0
  {
    if rate <= 1.0 {
      forall env: Env, strategy: Strategy, k: nat | env.config.takerFeeRate == rate && env.config.makerFeeRate <= rate
        ensures KeepsBooks(env, strategy, k)
      {
        BooksHoldUpToOne(rate, env, strategy, k);
      }
    } else {
      OverdrawnRunStops(rate, digest);
      hide Run;
      assert !KeepsBooks(World(rate, digest), Answer, 3);
    }
  }
}
