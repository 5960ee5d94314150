/** Candle-based evaluation of one order: costs, adverse rounding, liquidity and affordability. */
module Simulator {
  import opened Wrappers
  import opened Domain

  datatype NoFillReason =
    | NotYetEligible | OrderExpired | OrderNotActive | InvalidLimitTick | LimitNotCrossed
    | PriceOutsideCandle | NoLiquidity | InsufficientCash | InsufficientPosition
    | BelowMinQuantity | BelowMinNotional

  /** Each of these is a ValueError in the source. */
  datatype SimulatorError = NegativeConsumed | BadCosts | BadRoundedPrice | NegativeVolume | BadFill | BadOrder

  datatype Evaluation =
    | NoFill(reason: NoFillReason)
    | Filling(order: Order, fill: Fill, consumed: real)

  function FloorTo(x: real, step: real): real
    requires step > 0.0
  {
    (x / step).Floor as real * step
  }

  function RoundFillPrice(price: real, tick: real, side: Side): real
    requires tick > 0.0
  {
    if side.Buy? then -FloorTo(-price, tick) else FloorTo(price, tick)
  }

  /** Rounding is adverse: at most one step away, down for sells and quantities, up for buys. */
  lemma FloorToBounds(x: real, step: real)
    requires step > 0.0
    ensures FloorTo(x, step) <= x < FloorTo(x, step) + step
    ensures x >= 0.0 ==> FloorTo(x, step) >= 0.0
  {
    var ratio := x / step;
    FloorTimes(x, ratio, ratio.Floor as real, step);
    if x >= 0.0 {
      NonNegativeFloor(x / step, step);
    }
  }

  lemma FloorTimes(x: real, ratio: real, units: real, step: real)
    requires step > 0.0 && x == ratio * step && units <= ratio < units + 1.0
    ensures units * step <= x < units * step + step
  {
    BelowNextUnit(x, ratio, units, step);
    MulMonotone(units, ratio, step);
  }

  lemma BelowNextUnit(x: real, ratio: real, units: real, step: real)
    requires step > 0.0 && x == ratio * step && ratio < units + 1.0
    ensures x < units * step + step
  {
    MulStrict(ratio, units + 1.0, step);
  }

  lemma NonNegativeFloor(ratio: real, step: real)
    requires step > 0.0 && ratio * step >= 0.0
    ensures ratio.Floor as real * step >= 0.0
  {
    if ratio < 0.0 {
      MulStrict(ratio, 0.0, step);
    }
    MulMonotone(0.0, ratio.Floor as real, step);
  }

  lemma MulMonotone(x: real, y: real, k: real)
    requires x <= y && k >= 0.0
    ensures x * k <= y * k
  {
  }

  lemma MulStrict(x: real, y: real, k: real)
    requires x < y && k > 0.0
    ensures x * k < y * k
  {
  }

  predicate Crossed(order: Order, candle: Candle, config: Config) {
    match order.limitPrice
    case None => false
    case Some(price) =>
      var touch := config.limitFill.OptimisticTouchDiagnostic?;
      if order.side.Buy?
      then (if touch then candle.low <= price else candle.low < price)
      else (if touch then candle.high >= price else candle.high > price)
  }

  function AdversePrice(reference: real, side: Side, config: Config): real {
    var move := reference * config.halfSpreadBps / 10000.0 + reference * config.slippageBps / 10000.0;
    if side.Buy? then reference + move else reference - move
  }

  predicate OnTick(price: real, tick: real)
    requires tick > 0.0
  {
    FloorTo(price, tick) == price
  }

  function Steps(n: int, step: real): real {
    n as real * step
  }

  ghost predicate IsMultiple(x: real, step: real) {
    exists n: int :: x == Steps(n, step)
  }

  /** A price is on the grid exactly when it is a whole number of ticks. */
  lemma OnTickIffMultiple(x: real, step: real)
    requires step > 0.0
    ensures OnTick(x, step) <==> IsMultiple(x, step)
  {
    if OnTick(x, step) { assert x == Steps((x / step).Floor, step); }
    if IsMultiple(x, step) {
      var n: int :| x == Steps(n, step);
      QuotientOfMultiple(x, n, step);
    }
  }

  lemma QuotientOfMultiple(x: real, n: int, step: real)
    requires step > 0.0 && x == Steps(n, step)
    ensures x / step == n as real && (x / step).Floor == n
  {
    var q := x / step;
    assert q * step == n as real * step;
    if q < n as real { MulStrict(q, n as real, step); }
    if q > n as real { MulStrict(n as real, q, step); }
  }

  function FillPrice(order: Order, reference: real, config: Config): Result<real, SimulatorError>
    requires config.Valid()
  {
    match order.limitPrice
    case Some(price) => Ok(price)
    case None =>
      var adverse := AdversePrice(reference, order.side, config);
      if reference <= 0.0 || adverse <= 0.0 then Err(BadCosts)
      else
        var rounded := RoundFillPrice(adverse, config.priceTick, order.side);
        if rounded <= 0.0 then Err(BadRoundedPrice) else Ok(rounded)
  }

  function AvailableQuantity(candle: Candle, config: Config, consumed: real): real {
    Max(0.0, candle.volume * config.maxVolumeParticipation - consumed)
  }

  function Affordable(cash: real, price: real, feeRate: real): real
    requires price > 0.0 && feeRate >= 0.0
  {
    var unit := price * (1.0 + feeRate);
    assert unit > 0.0 by { MulStrict(0.0, 1.0 + feeRate, price); }
    cash / unit
  }

  function FeeRate(order: Order, config: Config): real {
    if order.orderType.Limit? then config.makerFeeRate else config.takerFeeRate
  }

  function Candidate(order: Order, candle: Candle, account: Account, config: Config, consumed: real, price: real): real
    requires config.Valid() && price > 0.0
  {
    var base := Min(order.Remaining(), AvailableQuantity(candle, config, consumed));
    if order.side.Buy? then Min(base, Affordable(account.cash, price, FeeRate(order, config)))
    else Min(base, account.position)
  }

  function MakeFill(order: Order, candle: Candle, config: Config, index: int, reference: real,
                    price: real, candidate: real, quantity: real): Fill
  {
    var notional := price * quantity;
    var market := order.orderType.Market?;
    Fill(
      FillId(order.orderId, index, quantity, price), order.orderId, index, candle.openTime, quantity,
      if market then reference else price, price, notional, notional * FeeRate(order, config),
      if market then reference * config.halfSpreadBps / 10000.0 * quantity else 0.0,
      if market then reference * config.slippageBps / 10000.0 * quantity else 0.0,
      market && price != AdversePrice(reference, order.side, config), quantity != candidate)
  }

  function EvaluateOrder(order: Order, candle: Candle, account: Account, config: Config, index: int,
                         consumed: real, marketReference: Option<real>): (r: Result<Evaluation, SimulatorError>)
    requires config.Valid() && ValidLimit(order.orderType, order.limitPrice)
  {
    var reference := if marketReference.Some? then marketReference.value else candle.open;
    if consumed < 0.0 then Err(NegativeConsumed)
    else if index < order.eligible then Ok(NoFill(NotYetEligible))
    else if index > order.expiresAfter then Ok(NoFill(OrderExpired))
    else if !order.Active() then Ok(NoFill(OrderNotActive))
    else if order.orderType.Limit? && !OnTick(order.limitPrice.value, config.priceTick) then
      Ok(NoFill(InvalidLimitTick))
    else if order.orderType.Limit? && !Crossed(order, candle, config) then Ok(NoFill(LimitNotCrossed))
    else
      match FillPrice(order, reference, config)
      case Err(error) => Err(error)
      case Ok(price) =>
        if !(candle.low <= price <= candle.high) then Ok(NoFill(PriceOutsideCandle))
        else if candle.volume < 0.0 then Err(NegativeVolume)
        else FillAt(order, candle, account, config, index, consumed, reference, price)
  }

  function FillAt(order: Order, candle: Candle, account: Account, config: Config, index: int,
                  consumed: real, reference: real, price: real): (r: Result<Evaluation, SimulatorError>)
    requires config.Valid() && price > 0.0
  {
    var candidate := Candidate(order, candle, account, config, consumed, price);
    if candidate <= 0.0 then
      Ok(NoFill(if AvailableQuantity(candle, config, consumed) <= 0.0 then NoLiquidity
                else if order.side.Buy? then InsufficientCash else InsufficientPosition))
    else
      var quantity := FloorTo(candidate, config.quantityStep);
      if quantity < config.minQuantity || quantity == 0.0 then Ok(NoFill(BelowMinQuantity))
      else if price * quantity < config.minNotional then Ok(NoFill(BelowMinNotional))
      else
        var fill := MakeFill(order, candle, config, index, reference, price, candidate, quantity);
        var total := order.filled + quantity;
        var updated := order.(filled := total, status := if total == order.requested then Filled else PartiallyFilled);
        if !fill.Valid() then Err(BadFill)
        else if !updated.Valid() then Err(BadOrder)
        else Ok(Filling(updated, fill, consumed + quantity))
  }

  /** What every fill satisfies, whatever the account it was evaluated against. */
  ghost predicate FillOutcome(order: Order, account: Account, config: Config, index: int, consumed: real, e: Evaluation)
    requires e.Filling?
  {
    && order.eligible <= index <= order.expiresAfter
    && order.Active()
    && e.fill.Valid()
    && e.fill.orderId == order.orderId
    && e.fill.candleIndex == index
    && e.fill.fillId == FillId(order.orderId, index, e.fill.quantity, e.fill.fillPrice)
    && e.fill.fee == e.fill.notional * FeeRate(order, config)
    && e.fill.quantity <= order.Remaining()
    && (order.side.Buy? ==> e.fill.notional + e.fill.fee <= account.cash)
    && (order.side.SellToClose? ==> e.fill.quantity <= account.position)
    && e.order.Valid()
    && e.order == order.(filled := order.filled + e.fill.quantity, status := e.order.status)
    && (e.order.status.Filled? || e.order.status.PartiallyFilled?)
    && e.consumed == consumed + e.fill.quantity
  }

  lemma AffordableIsPaid(cash: real, price: real, feeRate: real, quantity: real)
    requires price > 0.0 && feeRate >= 0.0
    requires quantity <= Affordable(cash, price, feeRate)
    ensures price * quantity + price * quantity * feeRate <= cash
  {
    var unit := price * (1.0 + feeRate);
    assert unit > 0.0 by { MulStrict(0.0, 1.0 + feeRate, price); }
    MulMonotone(quantity, cash / unit, unit);
    assert (cash / unit) * unit == cash;
    assert quantity * unit == price * quantity + price * quantity * feeRate;
  }

  lemma CandidateBounds(order: Order, candle: Candle, account: Account, config: Config, consumed: real, price: real)
    requires config.Valid() && price > 0.0
    ensures var candidate := Candidate(order, candle, account, config, consumed, price);
            && candidate <= order.Remaining()
            && (order.side.Buy? ==> candidate <= Affordable(account.cash, price, FeeRate(order, config)))
            && (order.side.SellToClose? ==> candidate <= account.position)
  {
    hide Affordable;
  }

  lemma FillAtIsBounded(order: Order, candle: Candle, account: Account, config: Config, index: int,
                        consumed: real, reference: real, price: real)
    requires config.Valid() && order.Valid() && order.Active() && price > 0.0
    requires order.eligible <= index <= order.expiresAfter
    ensures var r := FillAt(order, candle, account, config, index, consumed, reference, price);
            r.Ok? && r.value.Filling? ==> FillOutcome(order, account, config, index, consumed, r.value)
  {
    hide FloorTo, Affordable, Candidate;
    var r := FillAt(order, candle, account, config, index, consumed, reference, price);
    if r.Ok? && r.value.Filling? {
      var candidate := Candidate(order, candle, account, config, consumed, price);
      var quantity := FloorTo(candidate, config.quantityStep);
      CandidateBounds(order, candle, account, config, consumed, price);
      FloorToBounds(candidate, config.quantityStep);
      var fill := MakeFill(order, candle, config, index, reference, price, candidate, quantity);
      assert r.value.fill == fill && fill.quantity == quantity <= candidate;
      if order.side.Buy? {
        AffordableIsPaid(account.cash, price, FeeRate(order, config), quantity);
      }
    }
  }

  lemma FillIsBounded(order: Order, candle: Candle, account: Account, config: Config, index: int,
                      consumed: real, marketReference: Option<real>)
    requires config.Valid() && order.Valid()
    ensures var r := EvaluateOrder(order, candle, account, config, index, consumed, marketReference);
            r.Ok? && r.value.Filling? ==> FillOutcome(order, account, config, index, consumed, r.value)
  {
    var r := EvaluateOrder(order, candle, account, config, index, consumed, marketReference);
    if r.Ok? && r.value.Filling? {
      var reference := if marketReference.Some? then marketReference.value else candle.open;
      var price := FillPrice(order, reference, config).value;
      assert r == FillAt(order, candle, account, config, index, consumed, reference, price);
      FillAtIsBounded(order, candle, account, config, index, consumed, reference, price);
    }
  }

  lemma MulNonNegative(x: real, y: real)
    requires x >= 0.0 && y >= 0.0
    ensures x * y >= 0.0
  {
  }

  lemma MadeFillIsValid(order: Order, candle: Candle, config: Config, index: int, reference: real,
                        price: real, candidate: real, quantity: real)
    requires config.Valid() && price > 0.0 && quantity > 0.0 && index >= 0
    requires order.orderType.Market? ==> reference > 0.0
    ensures MakeFill(order, candle, config, index, reference, price, candidate, quantity).Valid()
  {
    hide AdversePrice;
    var fill := MakeFill(order, candle, config, index, reference, price, candidate, quantity);
    MulStrict(0.0, quantity, price);
    MulNonNegative(fill.notional, FeeRate(order, config));
    if order.orderType.Market? {
      MulNonNegative(reference, config.halfSpreadBps);
      MulNonNegative(reference, config.slippageBps);
      MulNonNegative(reference * config.halfSpreadBps / 10000.0, quantity);
      MulNonNegative(reference * config.slippageBps / 10000.0, quantity);
    }
  }

  lemma FillAtNeverRaises(order: Order, candle: Candle, account: Account, config: Config, index: int,
                          consumed: real, reference: real, price: real)
    requires config.Valid() && order.Valid() && order.Active() && price > 0.0 && index >= 0
    requires order.orderType.Market? ==> reference > 0.0
    ensures FillAt(order, candle, account, config, index, consumed, reference, price).Ok?
  {
    hide FloorTo, Affordable;
    var candidate := Candidate(order, candle, account, config, consumed, price);
    var quantity := FloorTo(candidate, config.quantityStep);
    FloorToBounds(candidate, config.quantityStep);
    if quantity > 0.0 {
      MadeFillIsValid(order, candle, config, index, reference, price, candidate, quantity);
    }
    hide Candidate, MakeFill;
  }

  /** Costs or adverse rounding leave no positive price to fill at. */
  predicate NoPositivePrice(order: Order, reference: real, config: Config)
    requires config.Valid()
  {
    var adverse := AdversePrice(reference, order.side, config);
    reference <= 0.0 || adverse <= 0.0 || RoundFillPrice(adverse, config.priceTick, order.side) <= 0.0
  }

  /**
   On a verified candle evaluation raises in exactly one case: an open market order, evaluated inside its
   lifetime, whose price costs and rounding leave non-positive.
   */
  lemma EvaluationRaisesOnlyOnCosts(order: Order, candle: Candle, account: Account, config: Config, index: int,
                                    consumed: real, marketReference: Option<real>)
    requires config.Valid() && order.Valid() && candle.Valid() && index >= 0 && consumed >= 0.0
    ensures var r := EvaluateOrder(order, candle, account, config, index, consumed, marketReference);
            r.Err? ==> order.orderType.Market? && (r.error.BadCosts? || r.error.BadRoundedPrice?)
    ensures var reference := if marketReference.Some? then marketReference.value else candle.open;
            EvaluateOrder(order, candle, account, config, index, consumed, marketReference).Err?
            <==> order.Active() && order.orderType.Market? && order.eligible <= index <= order.expiresAfter
                 && NoPositivePrice(order, reference, config)
  {
    hide FloorTo, FillAt;
    var reference := if marketReference.Some? then marketReference.value else candle.open;
    var r := EvaluateOrder(order, candle, account, config, index, consumed, marketReference);
    if r.Err? && FillPrice(order, reference, config).Ok? {
      var price := FillPrice(order, reference, config).value;
      assert r == FillAt(order, candle, account, config, index, consumed, reference, price);
      FillAtNeverRaises(order, candle, account, config, index, consumed, reference, price);
    }
  }
}
