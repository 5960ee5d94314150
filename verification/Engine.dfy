/**
 The chronological engine as a state machine over candles. A raised exception leaves behind whatever
 the engine had already written, so every operation returns the state together with the failure.
 */
module Engine {
  import Sorting
  import opened Wrappers
  import opened Domain
  import opened Simulator
  import opened Accounting

  datatype ChronologyError =
    | AlreadyFinalized | DuplicateCandle | OutOfOrder | IndexGap | BeyondDataset | IdentityChanged
    | Incomplete | InstrumentMismatch | TimeframeMismatch | NonCashBoundary

  datatype Failure =
    | Chronology(chronology: ChronologyError)
    | Simulation(simulation: SimulatorError)
    | Books(books: AccountingError)
    | StrategyContract
    | DuplicateOrderIdentity

  datatype RejectionReason =
    | ConflictingIntents | ActiveOrderSameSide | PositionTooSmall | QuantityTooSmall | BadLimitTick | NotionalTooSmall

  datatype Rejection = Rejection(
    candleIndex: int,
    decisionSequence: int,
    intentSequence: int,
    side: Side,
    orderType: OrderType,
    reason: RejectionReason)

  datatype Decision = Decision(sequence: int, candleIndex: int, openTime: int, intents: seq<ValidIntent>)

  datatype BoundaryRecord = BoundaryRecord(candleIndex: int, segmentNumber: int)

  /** The fixed inputs of one experiment; `digest` is SHA-256 of the experiment, decision and intent. */
  datatype Env = Env(
    config: ValidConfig,
    initialCash: real,
    instrument: string,
    timeframe: Timeframe,
    candles: seq<Candle>,
    boundaries: set<int>,
    digest: (int, int) -> OrderId)

  datatype Context = Context(candleIndex: int, candle: Candle, account: Account, activeOrders: seq<Order>)

  /** A strategy answers from everything it has been shown so far; `None` is an exception or a broken contract. */
  type Strategy = seq<Context> -> Option<seq<ValidIntent>>

  datatype State = State(
    account: Account,
    decisions: seq<Decision>,
    orders: map<OrderId, Order>,
    orderIds: seq<OrderId>,
    fills: seq<Fill>,
    ledger: seq<LedgerEntry>,
    series: seq<Account>,
    rejections: seq<Rejection>,
    boundaryRecords: seq<BoundaryRecord>,
    lastIndex: int,
    lastCandle: Option<Candle>,
    finalized: bool)

  datatype Outcome = Outcome(state: State, failure: Option<Failure>)
  datatype Pass = Pass(state: State, consumed: real, failure: Option<Failure>)
  datatype Acceptance = Acceptance(state: State, accepted: seq<OrderId>, failure: Option<Failure>)

  function Start(env: Env): State {
    State(InitialAccount(env.initialCash), [], map[], [], [], [], [], [], [], -1, None, false)
  }

  // ---------------------------------------------------------------- order identities in digest order

  predicate IdAtMost(a: OrderId, b: OrderId) {
    a <= b
  }

  function SortIds(ids: seq<OrderId>): seq<OrderId> {
    Sorting.Sorted(IdAtMost, ids)
  }

  function KeepActive(orders: map<OrderId, Order>, ids: seq<OrderId>): seq<OrderId> {
    if ids == [] then []
    else (if ids[0] in orders && orders[ids[0]].Active() then [ids[0]] else []) + KeepActive(orders, ids[1..])
  }

  function ActiveIds(s: State): seq<OrderId> {
    KeepActive(s.orders, SortIds(s.orderIds))
  }

  function OrdersOf(orders: map<OrderId, Order>, ids: seq<OrderId>): seq<Order> {
    if ids == [] then []
    else (if ids[0] in orders then [orders[ids[0]]] else []) + OrdersOf(orders, ids[1..])
  }

  // ---------------------------------------------------------------- evaluation

  function RecordFill(s: State, order: Order, e: Evaluation): State
    requires e.Filling?
  {
    s.(account := Updated(s.account, order.side, e.fill),
       fills := s.fills + [e.fill],
       ledger := s.ledger + [Entry(s.account, order, e.fill, |s.ledger| + 1)],
       orders := s.orders[order.orderId := e.order])
  }

  /** An order still open after its evaluation is cancelled (IOC, BAR) or expires (GTC). */
  function Settled(order: Order, index: int): Order {
    if !order.Active() || index < order.eligible then order
    else if !order.tif.GTC? then order.(status := Cancelled)
    else if index >= order.expiresAfter then order.(status := Expired)
    else order
  }

  function SettleOrder(s: State, id: OrderId, index: int): State {
    if id in s.orders then s.(orders := s.orders[id := Settled(s.orders[id], index)]) else s
  }

  function EvaluateOne(
    env: Env, s: State, id: OrderId, index: int, candle: Candle, consumed: real, reference: Option<real>): Pass
  {
    if id !in s.orders || !s.orders[id].Active() then Pass(s, consumed, None)
    else if !s.orders[id].Valid() then Pass(s, consumed, Some(Simulation(BadOrder)))
    else
      var order := s.orders[id];
      match EvaluateOrder(order, candle, s.account, env.config, index, consumed, reference)
      case Err(error) => Pass(s, consumed, Some(Simulation(error)))
      case Ok(NoFill(_)) => Pass(SettleOrder(s, id, index), consumed, None)
      case Ok(Filling(updated, fill, after)) =>
        match ApplyFill(s.account, order, fill, |s.ledger| + 1)
        case Err(error) => Pass(s, after, Some(Books(error)))
        case Ok((account, entry)) =>
          var recorded := s.(account := account, fills := s.fills + [fill], ledger := s.ledger + [entry],
                             orders := s.orders[id := updated]);
          Pass(SettleOrder(recorded, id, index), after, None)
  }

  function EvaluateAll(
    env: Env, s: State, ids: seq<OrderId>, index: int, candle: Candle, consumed: real, reference: Option<real>): Pass
    decreases |ids|
  {
    if ids == [] then Pass(s, consumed, None)
    else
      var first := EvaluateOne(env, s, ids[0], index, candle, consumed, reference);
      if first.failure.Some? then first
      else EvaluateAll(env, first.state, ids[1..], index, candle, first.consumed, reference)
  }

  // ---------------------------------------------------------------- acceptance

  function CountSide(intents: seq<ValidIntent>, side: Side): nat {
    if intents == [] then 0 else (if intents[0].side == side then 1 else 0) + CountSide(intents[1..], side)
  }

  predicate Conflict(intents: seq<ValidIntent>) {
    var buys, sells := CountSide(intents, Buy), CountSide(intents, SellToClose);
    buys > 1 || sells > 1 || (buys > 0 && sells > 0)
  }

  function RejectionFor(env: Env, s: State, intent: ValidIntent, activeSides: set<Side>): Option<RejectionReason> {
    if intent.side in activeSides then Some(ActiveOrderSameSide)
    else if intent.side.SellToClose? && intent.quantity > s.account.position then Some(PositionTooSmall)
    else if intent.quantity < env.config.minQuantity then Some(QuantityTooSmall)
    else if intent.orderType.Limit? then
      (if !OnTick(intent.limitPrice.value, env.config.priceTick) then Some(BadLimitTick)
       else if intent.limitPrice.value * intent.quantity < env.config.minNotional then Some(NotionalTooSmall)
       else None)
    else None
  }

  function Reject(
    s: State, index: int, decision: int, sequence: int, intent: ValidIntent, reason: RejectionReason): State
  {
    s.(rejections := s.rejections + [Rejection(index, decision, sequence, intent.side, intent.orderType, reason)])
  }

  function RejectAll(s: State, intents: seq<ValidIntent>, index: int, decision: int, sequence: int): State
    decreases |intents|
  {
    if intents == [] then s
    else
      var rejected := Reject(s, index, decision, sequence, intents[0], ConflictingIntents);
      RejectAll(rejected, intents[1..], index, decision, sequence + 1)
  }

  function NewOrder(env: Env, intent: ValidIntent, index: int, decision: int, sequence: int): Order {
    var eligible := index + env.config.latencyBars + (if env.config.timing.SameCloseDiagnostic? then 0 else 1);
    Order(env.digest(decision, sequence), decision, sequence, index, eligible,
          if intent.tif.GTC? then eligible + env.config.maxActiveCandles - 1 else eligible,
          intent.side, intent.orderType, intent.quantity, 0.0, intent.limitPrice, intent.tif, Accepted)
  }

  function AddOrder(s: State, order: Order): State {
    s.(orders := s.orders[order.orderId := order], orderIds := s.orderIds + [order.orderId])
  }

  function AcceptFrom(env: Env, s: State, intents: seq<ValidIntent>, index: int, decision: int, sequence: int,
                      activeSides: set<Side>, accepted: seq<OrderId>): Acceptance
    decreases |intents|
  {
    if intents == [] then Acceptance(s, accepted, None)
    else
      var intent := intents[0];
      match RejectionFor(env, s, intent, activeSides)
      case Some(reason) =>
        var rejected := Reject(s, index, decision, sequence, intent, reason);
        AcceptFrom(env, rejected, intents[1..], index, decision, sequence + 1, activeSides, accepted)
      case None =>
        var order := NewOrder(env, intent, index, decision, sequence);
        if order.orderId in s.orders then Acceptance(s, accepted, Some(DuplicateOrderIdentity))
        else AcceptFrom(env, AddOrder(s, order), intents[1..], index, decision, sequence + 1,
                        activeSides + {intent.side}, accepted + [order.orderId])
  }

  function ActiveSides(s: State): set<Side> {
    set id | id in s.orders && s.orders[id].Active() :: s.orders[id].side
  }

  function AcceptIntents(env: Env, s: State, intents: seq<ValidIntent>, index: int, decision: int): Acceptance {
    if Conflict(intents) then Acceptance(RejectAll(s, intents, index, decision, 1), [], None)
    else AcceptFrom(env, s, intents, index, decision, 1, ActiveSides(s), [])
  }

  // ---------------------------------------------------------------- one candle

  predicate NonCash(s: State) {
    ActiveIds(s) != [] || s.account.position != 0.0 || s.account.reservedCash != 0.0
  }

  function CheckCandle(env: Env, s: State, index: int, candle: Candle): Option<ChronologyError> {
    if s.finalized then Some(AlreadyFinalized)
    else if index <= s.lastIndex then Some(if index == s.lastIndex then DuplicateCandle else OutOfOrder)
    else if index != s.lastIndex + 1 then Some(IndexGap)
    else if index >= |env.candles| then Some(BeyondDataset)
    else if index < 0 || candle != env.candles[index] then Some(IdentityChanged)
    else if !candle.completed then Some(Incomplete)
    else if candle.instrument != env.instrument then Some(InstrumentMismatch)
    else if candle.timeframe != env.timeframe then Some(TimeframeMismatch)
    else if index in env.boundaries && NonCash(s) then Some(NonCashBoundary)
    else None
  }

  function CrossedBoundaries(env: Env, index: int): set<int> {
    set b | b in env.boundaries && b <= index
  }

  function EnterSegment(env: Env, s: State, index: int): State {
    if index in env.boundaries
    then s.(boundaryRecords := s.boundaryRecords + [BoundaryRecord(index, 1 + |CrossedBoundaries(env, index)|)])
    else s
  }

  function Mark(s: State, candle: Candle): Outcome {
    match MarkToMarket(s.account, candle.close)
    case Err(error) => Outcome(s, Some(Books(error)))
    case Ok(account) => Outcome(s.(account := account), None)
  }

  /** Evaluates the standing orders and marks the account: everything the strategy sees is in the result. */
  function BeforeDecision(env: Env, s: State, index: int, candle: Candle): Pass {
    var entered := EnterSegment(env, s, index);
    var pass := EvaluateAll(env, entered, SortIds(ActiveIds(entered)), index, candle, 0.0, None);
    if pass.failure.Some? then pass
    else
      var marked := Mark(pass.state, candle);
      Pass(marked.state, pass.consumed, marked.failure)
  }

  function ContextOf(s: State, index: int, candle: Candle): Context {
    Context(index, candle, s.account, OrdersOf(s.orders, ActiveIds(s)))
  }

  function KeepEligible(orders: map<OrderId, Order>, ids: seq<OrderId>, index: int): seq<OrderId> {
    if ids == [] then []
    else
      (if ids[0] in orders && orders[ids[0]].eligible == index then [ids[0]] else [])
      + KeepEligible(orders, ids[1..], index)
  }

  /** In same-close mode the orders accepted on this candle may still fill on it, at its close. */
  function SameClose(env: Env, s: State, accepted: seq<OrderId>, index: int, candle: Candle, consumed: real): Outcome {
    if env.config.timing.NextCandle? then Outcome(s, None)
    else
      var ids := SortIds(KeepEligible(s.orders, accepted, index));
      var pass := EvaluateAll(env, s, ids, index, candle, consumed, Some(candle.close));
      if pass.failure.Some? then Outcome(pass.state, pass.failure) else Mark(pass.state, candle)
  }

  function Decide(s: State, index: int, candle: Candle, intents: seq<ValidIntent>): State {
    s.(decisions := s.decisions + [Decision(|s.decisions| + 1, index, candle.openTime, intents)])
  }

  function Advance(s: State, index: int, candle: Candle): State {
    s.(series := s.series + [s.account], lastIndex := index, lastCandle := Some(candle))
  }

  function AfterDecision(
    env: Env, s: State, index: int, candle: Candle, consumed: real, intents: seq<ValidIntent>): Outcome
  {
    var decided := Decide(s, index, candle, intents);
    var acceptance := AcceptIntents(env, decided, intents, index, |decided.decisions|);
    if acceptance.failure.Some? then Outcome(acceptance.state, acceptance.failure)
    else
      var closed := SameClose(env, acceptance.state, acceptance.accepted, index, candle, consumed);
      if closed.failure.Some? then closed else Outcome(Advance(closed.state, index, candle), None)
  }

  datatype Trace = Trace(outcome: Outcome, contexts: seq<Context>)

  function ProcessCandle(
    env: Env, strategy: Strategy, s: State, contexts: seq<Context>, index: int, candle: Candle): Trace
  {
    var refused := CheckCandle(env, s, index, candle);
    if refused.Some? then Trace(Outcome(s, Some(Chronology(refused.value))), contexts)
    else
      var before := BeforeDecision(env, s, index, candle);
      if before.failure.Some? then Trace(Outcome(before.state, before.failure), contexts)
      else
        var shown := contexts + [ContextOf(before.state, index, candle)];
        match strategy(shown)
        case None => Trace(Outcome(before.state, Some(StrategyContract)), shown)
        case Some(intents) => Trace(AfterDecision(env, before.state, index, candle, before.consumed, intents), shown)
  }

  /** The first `k` candles of the dataset, stopping at the first failure. */
  function Run(env: Env, strategy: Strategy, k: nat): Trace
    requires k <= |env.candles|
  {
    if k == 0 then Trace(Outcome(Start(env), None), [])
    else
      var before := Run(env, strategy, k - 1);
      if before.outcome.failure.Some? then before
      else ProcessCandle(env, strategy, before.outcome.state, before.contexts, k - 1, env.candles[k - 1])
  }

  // ---------------------------------------------------------------- the end of a run

  function CancelActive(orders: map<OrderId, Order>, ids: seq<OrderId>): map<OrderId, Order> {
    if ids == [] then orders
    else
      var id := ids[0];
      var active := id in orders && orders[id].Active();
      CancelActive(if active then orders[id := orders[id].(status := Cancelled)] else orders, ids[1..])
  }

  /** Cancels what is open and re-marks the account; reconciliation then only reads. */
  function Closing(s: State): Outcome {
    var cancelled := s.(orders := CancelActive(s.orders, s.orderIds));
    if s.lastCandle.None? then Outcome(cancelled, None)
    else
      var marked := Mark(cancelled, s.lastCandle.value);
      if marked.failure.Some? || s.series == [] then marked
      else Outcome(marked.state.(series := s.series[|s.series| - 1 := marked.state.account]), None)
  }
}
