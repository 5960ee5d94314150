/** When an order fills, at what price and for how much: one condition on order, candle, account and configuration. */
module FillRule {
  import opened Wrappers
  import opened Domain
  import opened Simulator

  // ---------------------------------------------------------------- the price

  /** What the spread and the slippage add for a buyer, or take from a seller. */
  function Impact(reference: real, config: Config): real {
    reference * (config.halfSpreadBps + config.slippageBps) / 10000.0
  }

  /** The grid price next to a reference moved by its costs, on the side that is worse for the order. */
  ghost predicate IsMarketPrice(side: Side, reference: real, config: Config, price: real) {
    && reference > 0.0 && price > 0.0
    && IsMultiple(price, config.priceTick)
    && match side
       case Buy => 0.0 <= price - (reference + Impact(reference, config)) < config.priceTick
       case SellToClose => 0.0 <= reference - Impact(reference, config) - price < config.priceTick
  }

  ghost predicate Within(candle: Candle, x: real) {
    candle.low <= x <= candle.high
  }

  /** A price that beats the limit; touching it is enough only under the optimistic diagnostic. */
  ghost predicate Beats(x: real, limit: real, side: Side, config: Config) {
    match side
    case Buy => x < limit || (x == limit && config.limitFill.OptimisticTouchDiagnostic?)
    case SellToClose => x > limit || (x == limit && config.limitFill.OptimisticTouchDiagnostic?)
  }

  /** The candle traded somewhere that beats the limit, and at the limit itself, which lies on the grid. */
  ghost predicate IsLimitPrice(order: Order, candle: Candle, config: Config, price: real) {
    && order.limitPrice == Some(price)
    && IsMultiple(price, config.priceTick)
    && exists x :: Within(candle, x) && Beats(x, price, order.side, config)
  }

  ghost predicate TradesAt(order: Order, candle: Candle, config: Config, reference: real, price: real) {
    && Within(candle, price)
    && if order.orderType.Limit? then IsLimitPrice(order, candle, config, price)
       else IsMarketPrice(order.side, reference, config, price)
  }

  // ---------------------------------------------------------------- the quantity

  /** A quantity the order, the candle's remaining volume and the account all allow, in whole steps. */
  ghost predicate Affords(
    order: Order, candle: Candle, account: Account, config: Config, consumed: real, price: real, q: real)
  {
    && IsMultiple(q, config.quantityStep)
    && 0.0 < q <= order.requested - order.filled
    && consumed + q <= candle.volume * config.maxVolumeParticipation
    && match order.side
       case Buy => price * q + price * q * FeeRate(order, config) <= account.cash
       case SellToClose => q <= account.position
  }

  ghost predicate LargeEnough(config: Config, price: real, q: real) {
    q >= config.minQuantity && price * q >= config.minNotional
  }

  ghost predicate Open(order: Order, index: int) {
    order.Active() && order.eligible <= index <= order.expiresAfter
  }

  /** Open on this candle, with a price to trade at and some quantity that is allowed and large enough. */
  ghost predicate CanFill(order: Order, candle: Candle, account: Account, config: Config, index: int, consumed: real,
                          reference: real)
  {
    && Open(order, index)
    && exists price, q ::
         && TradesAt(order, candle, config, reference, price)
         && Affords(order, candle, account, config, consumed, price, q)
         && LargeEnough(config, price, q)
  }

  // ---------------------------------------------------------------- prices are determined

  lemma AdverseIsImpact(reference: real, side: Side, config: Config)
    ensures AdversePrice(reference, side, config)
            == if side.Buy? then reference + Impact(reference, config) else reference - Impact(reference, config)
  {
  }

  lemma FloorIsMultiple(x: real, step: real)
    requires step > 0.0
    ensures IsMultiple(FloorTo(x, step), step) && IsMultiple(-FloorTo(x, step), step)
  {
    var n := (x / step).Floor;
    assert FloorTo(x, step) == Steps(n, step);
    assert -FloorTo(x, step) == Steps(-n, step);
  }

  /** Two grid points less than one step apart are the same. */
  lemma GridPointsCoincide(x: real, y: real, step: real)
    requires step > 0.0 && IsMultiple(x, step) && IsMultiple(y, step) && x - step < y < x + step
    ensures x == y
  {
    var n: int, m: int :| x == Steps(n, step) && y == Steps(m, step);
    hide Steps;
    if n < m { StepApart(n, m, step); }
    if m < n { StepApart(m, n, step); }
  }

  lemma StepApart(n: int, m: int, step: real)
    requires step > 0.0 && n < m
    ensures Steps(n, step) + step <= Steps(m, step)
  {
    MulMonotone((n + 1) as real, m as real, step);
    assert Steps(n, step) + step == (n + 1) as real * step;
  }

  /** The rounded price is the market price, and there is no other. */
  lemma RoundedIsMarketPrice(side: Side, reference: real, config: Config, price: real)
    requires config.Valid() && reference > 0.0
    ensures IsMarketPrice(side, reference, config, price) <==>
              price > 0.0 && price == RoundFillPrice(AdversePrice(reference, side, config), config.priceTick, side)
  {
    var adverse := AdversePrice(reference, side, config);
    var tick := config.priceTick;
    var rounded := RoundFillPrice(adverse, tick, side);
    AdverseIsImpact(reference, side, config);
    FloorIsMultiple(adverse, tick);
    FloorIsMultiple(-adverse, tick);
    FloorToBounds(adverse, tick);
    FloorToBounds(-adverse, tick);
    hide AdversePrice, FloorTo, IsMultiple, Impact;
    if IsMarketPrice(side, reference, config, price) { GridPointsCoincide(price, rounded, tick); }
  }

  /** The candle's extreme decides whether it traded beyond the limit. */
  lemma CrossedIffBeaten(order: Order, candle: Candle, config: Config, price: real)
    requires candle.Valid() && order.limitPrice == Some(price)
    ensures Crossed(order, candle, config) <==> exists x :: Within(candle, x) && Beats(x, price, order.side, config)
  {
    var extreme := if order.side.Buy? then candle.low else candle.high;
    assert Within(candle, extreme);
    if Crossed(order, candle, config) { assert Beats(extreme, price, order.side, config); }
  }

  /** The price the simulator takes is the one the order trades at, if there is one. */
  lemma PriceIsTraded(order: Order, candle: Candle, config: Config, reference: real, price: real)
    requires config.Valid() && order.Valid() && candle.Valid() && Within(candle, price)
    ensures TradesAt(order, candle, config, reference, price) <==>
              && FillPrice(order, reference, config) == Ok(price)
              && (order.orderType.Limit? ==> OnTick(price, config.priceTick) && Crossed(order, candle, config))
  {
    if order.orderType.Limit? {
      if order.limitPrice == Some(price) {
        OnTickIffMultiple(price, config.priceTick);
        CrossedIffBeaten(order, candle, config, price);
      }
    } else if reference > 0.0 {
      RoundedIsMarketPrice(order.side, reference, config, price);
      RoundedStaysBelow(order.side, AdversePrice(reference, order.side, config), config.priceTick);
    }
  }

  /** Rounding never helps the order. */
  lemma RoundedStaysBelow(side: Side, adverse: real, tick: real)
    requires tick > 0.0
    ensures side.SellToClose? ==> RoundFillPrice(adverse, tick, side) <= adverse
    ensures side.Buy? ==> RoundFillPrice(adverse, tick, side) >= adverse
  {
    FloorToBounds(adverse, tick);
    FloorToBounds(-adverse, tick);
  }

  // ---------------------------------------------------------------- quantities are the largest

  lemma MultipleBelowFloor(q: real, x: real, step: real)
    requires step > 0.0 && IsMultiple(q, step) && q <= x
    ensures q <= FloorTo(x, step)
  {
    FloorToBounds(x, step);
    FloorIsMultiple(x, step);
    var floor := FloorTo(x, step);
    var n: int, m: int :| q == Steps(n, step) && floor == Steps(m, step);
    hide FloorTo, Steps;
    if m < n { StepApart(m, n, step); }
    if n < m { StepApart(n, m, step); }
  }

  lemma PaidIsAffordable(cash: real, price: real, feeRate: real, q: real)
    requires price > 0.0 && feeRate >= 0.0
    ensures q <= Affordable(cash, price, feeRate) <==> price * q + price * q * feeRate <= cash
  {
    if q <= Affordable(cash, price, feeRate) { AffordableIsPaid(cash, price, feeRate, q); }
    var unit := price * (1.0 + feeRate);
    assert unit > 0.0 by { MulStrict(0.0, 1.0 + feeRate, price); }
    assert q * unit == price * q + price * q * feeRate;
    assert (cash / unit) * unit == cash;
    if cash / unit < q { MulStrict(cash / unit, q, unit); }
  }

  /** The candidate is the least of the limits, so a quantity respects all of them exactly when it is not above it. */
  lemma AffordsIffWithinCandidate(
    order: Order, candle: Candle, account: Account, config: Config, consumed: real, price: real, q: real)
    requires config.Valid() && price > 0.0 && q > 0.0 && IsMultiple(q, config.quantityStep)
    ensures Affords(order, candle, account, config, consumed, price, q) <==>
              q <= Candidate(order, candle, account, config, consumed, price)
  {
    PaidIsAffordable(account.cash, price, FeeRate(order, config), q);
    hide Affordable, IsMultiple;
  }

  /** The rounded candidate is the largest quantity allowed, and is itself allowed if it is not zero. */
  lemma RoundedIsLargest(
    order: Order, candle: Candle, account: Account, config: Config, consumed: real, price: real)
    requires config.Valid() && price > 0.0
    ensures var rounded := FloorTo(Candidate(order, candle, account, config, consumed, price), config.quantityStep);
            && (forall q :: Affords(order, candle, account, config, consumed, price, q) ==> q <= rounded)
            && (rounded > 0.0 ==> Affords(order, candle, account, config, consumed, price, rounded))
  {
    var candidate := Candidate(order, candle, account, config, consumed, price);
    var rounded := FloorTo(candidate, config.quantityStep);
    FloorToBounds(candidate, config.quantityStep);
    FloorIsMultiple(candidate, config.quantityStep);
    hide Candidate, FloorTo, IsMultiple;
    forall q | Affords(order, candle, account, config, consumed, price, q) ensures q <= rounded {
      AffordsIffWithinCandidate(order, candle, account, config, consumed, price, q);
      MultipleBelowFloor(q, candidate, config.quantityStep);
    }
    if rounded > 0.0 {
      AffordsIffWithinCandidate(order, candle, account, config, consumed, price, rounded);
    }
  }

  lemma LargerIsLargeEnough(config: Config, price: real, small: real, large: real)
    requires price > 0.0 && small <= large && LargeEnough(config, price, small)
    ensures LargeEnough(config, price, large)
  {
    MulMonotone(small, large, price);
  }

  lemma FillAtIsRounded(order: Order, candle: Candle, account: Account, config: Config, index: int,
                        consumed: real, reference: real, price: real)
    requires config.Valid() && order.Valid() && order.Active() && price > 0.0 && index >= 0
    requires order.orderType.Market? ==> reference > 0.0
    ensures var r := FillAt(order, candle, account, config, index, consumed, reference, price);
            var rounded := FloorTo(Candidate(order, candle, account, config, consumed, price), config.quantityStep);
            && r.Ok?
            && (r.value.Filling? <==> rounded > 0.0 && LargeEnough(config, price, rounded))
            && (r.value.Filling? ==> r.value.fill.fillPrice == price && r.value.fill.quantity == rounded)
  {
    var candidate := Candidate(order, candle, account, config, consumed, price);
    FillAtNeverRaises(order, candle, account, config, index, consumed, reference, price);
    FloorToBounds(candidate, config.quantityStep);
    hide Candidate, FloorTo, AdversePrice;
  }

  lemma AffordsIsPositive(
    order: Order, candle: Candle, account: Account, config: Config, consumed: real, price: real, q: real)
    requires Affords(order, candle, account, config, consumed, price, q)
    ensures q > 0.0
  {
  }

  /** Some allowed quantity is large enough exactly when the largest one is. */
  lemma LargestDecides(
    order: Order, candle: Candle, account: Account, config: Config, consumed: real, price: real, rounded: real)
    requires config.Valid() && price > 0.0
    requires forall q :: Affords(order, candle, account, config, consumed, price, q) ==> q <= rounded
    requires rounded > 0.0 ==> Affords(order, candle, account, config, consumed, price, rounded)
    ensures (exists q :: Affords(order, candle, account, config, consumed, price, q) && LargeEnough(config, price, q))
            <==> rounded > 0.0 && LargeEnough(config, price, rounded)
  {
    hide Affords, LargeEnough;
    if q :| Affords(order, candle, account, config, consumed, price, q) && LargeEnough(config, price, q) {
      LargerIsLargeEnough(config, price, q, rounded);
      AffordsIsPositive(order, candle, account, config, consumed, price, q);
    }
  }

  /** At a given price: a fill happens exactly when some allowed quantity is large enough, and it takes the largest. */
  ghost predicate TakesTheLargest(order: Order, candle: Candle, account: Account, config: Config, consumed: real,
                                  price: real, r: Result<Evaluation, SimulatorError>)
  {
    && (r.Ok? && r.value.Filling? <==>
          exists q :: Affords(order, candle, account, config, consumed, price, q) && LargeEnough(config, price, q))
    && (r.Ok? && r.value.Filling? ==>
          && r.value.fill.fillPrice == price
          && Affords(order, candle, account, config, consumed, price, r.value.fill.quantity)
          && forall q :: Affords(order, candle, account, config, consumed, price, q) ==> q <= r.value.fill.quantity)
  }

  lemma FillAtTakesTheLargest(order: Order, candle: Candle, account: Account, config: Config, index: int,
                              consumed: real, reference: real, price: real)
    requires config.Valid() && order.Valid() && order.Active() && price > 0.0 && index >= 0
    requires order.orderType.Market? ==> reference > 0.0
    ensures TakesTheLargest(order, candle, account, config, consumed, price,
                            FillAt(order, candle, account, config, index, consumed, reference, price))
  {
    var rounded := FloorTo(Candidate(order, candle, account, config, consumed, price), config.quantityStep);
    FillAtIsRounded(order, candle, account, config, index, consumed, reference, price);
    RoundedIsLargest(order, candle, account, config, consumed, price);
    hide Candidate, FloorTo, Affords, LargeEnough, FillAt;
    LargestDecides(order, candle, account, config, consumed, price, rounded);
  }

  lemma TradedIsEvaluated(order: Order, candle: Candle, account: Account, config: Config, index: int, consumed: real,
                          marketReference: Option<real>, price: real)
    requires config.Valid() && order.Valid() && candle.Valid() && consumed >= 0.0 && Open(order, index)
    requires var reference := if marketReference.Some? then marketReference.value else candle.open;
             TradesAt(order, candle, config, reference, price)
    ensures var reference := if marketReference.Some? then marketReference.value else candle.open;
            && price > 0.0 && (order.orderType.Market? ==> reference > 0.0)
            && EvaluateOrder(order, candle, account, config, index, consumed, marketReference)
               == FillAt(order, candle, account, config, index, consumed, reference, price)
  {
    var reference := if marketReference.Some? then marketReference.value else candle.open;
    PriceIsTraded(order, candle, config, reference, price);
    hide FillAt, Crossed, OnTick, FloorTo;
  }

  lemma UntradedStaysOpen(order: Order, candle: Candle, account: Account, config: Config, index: int, consumed: real,
                          marketReference: Option<real>)
    requires config.Valid() && order.Valid() && candle.Valid()
    requires var reference := if marketReference.Some? then marketReference.value else candle.open;
             !Open(order, index) || forall price :: !TradesAt(order, candle, config, reference, price)
    ensures var r := EvaluateOrder(order, candle, account, config, index, consumed, marketReference);
            !(r.Ok? && r.value.Filling?)
  {
    var reference := if marketReference.Some? then marketReference.value else candle.open;
    var price := FillPrice(order, reference, config);
    if price.Ok? && Within(candle, price.value) {
      PriceIsTraded(order, candle, config, reference, price.value);
    }
    hide FillAt, Crossed, OnTick, FillPrice, TradesAt;
  }

  lemma OnePrice(order: Order, candle: Candle, config: Config, reference: real, price: real, other: real)
    requires config.Valid() && order.Valid() && candle.Valid()
    requires TradesAt(order, candle, config, reference, price) && TradesAt(order, candle, config, reference, other)
    ensures price == other
  {
    PriceIsTraded(order, candle, config, reference, price);
    PriceIsTraded(order, candle, config, reference, other);
  }

  /**
   An order fills exactly when it can: it is open on this candle, the candle traded at a price the order accepts,
   and some whole number of steps that remainder, volume and account allow meets both minimums. It then fills at
   that price, for the largest such quantity.
   */
  lemma FillsIffItCan(order: Order, candle: Candle, account: Account, config: Config, index: int, consumed: real,
                      marketReference: Option<real>)
    requires config.Valid() && order.Valid() && candle.Valid() && index >= 0 && consumed >= 0.0
    ensures var r := EvaluateOrder(order, candle, account, config, index, consumed, marketReference);
            var reference := if marketReference.Some? then marketReference.value else candle.open;
            && (r.Ok? && r.value.Filling? <==> CanFill(order, candle, account, config, index, consumed, reference))
            && (r.Ok? && r.value.Filling? ==>
                  var price, quantity := r.value.fill.fillPrice, r.value.fill.quantity;
                  && TradesAt(order, candle, config, reference, price)
                  && Affords(order, candle, account, config, consumed, price, quantity)
                  && forall q :: Affords(order, candle, account, config, consumed, price, q) ==> q <= quantity)
  {
    var reference := if marketReference.Some? then marketReference.value else candle.open;
    hide EvaluateOrder, TradesAt, Affords, LargeEnough, FillAt;
    if !Open(order, index) || forall price :: !TradesAt(order, candle, config, reference, price) {
      UntradedStaysOpen(order, candle, account, config, index, consumed, marketReference);
    } else {
      var price :| TradesAt(order, candle, config, reference, price);
      TradedIsEvaluated(order, candle, account, config, index, consumed, marketReference, price);
      FillAtTakesTheLargest(order, candle, account, config, index, consumed, reference, price);
      forall other | TradesAt(order, candle, config, reference, other) ensures other == price {
        OnePrice(order, candle, config, reference, price, other);
      }
    }
  }

  // ---------------------------------------------------------------- what a fill costs

  /** What a fill pays, or gives up, beyond the reference price, its spread and its slippage. */
  function RoundingCost(side: Side, f: Fill): real {
    var fair := f.referencePrice * f.quantity;
    (if side.Buy? then f.notional - fair else fair - f.notional) - f.spreadCost - f.slippageCost
  }

  /** The recorded costs of a fill account for its whole distance from the reference price, up to one tick a unit. */
  ghost predicate CostsExplained(order: Order, config: Config, reference: real, f: Fill) {
    && f.fee == f.notional * FeeRate(order, config)
    && if order.orderType.Limit?
       then f.referencePrice == f.fillPrice && f.spreadCost == 0.0 && f.slippageCost == 0.0 && !f.priceWasRounded
       else
         && f.referencePrice == reference
         && f.spreadCost * 10000.0 == reference * config.halfSpreadBps * f.quantity
         && f.slippageCost * 10000.0 == reference * config.slippageBps * f.quantity
         && 0.0 <= RoundingCost(order.side, f) < config.priceTick * f.quantity
         && (f.priceWasRounded <==> RoundingCost(order.side, f) != 0.0)
  }

  lemma MadeRounding(order: Order, candle: Candle, config: Config, index: int, reference: real, price: real,
                     candidate: real, quantity: real)
    requires config.Valid() && quantity > 0.0 && order.orderType.Market?
    requires price == RoundFillPrice(AdversePrice(reference, order.side, config), config.priceTick, order.side)
    ensures var f := MakeFill(order, candle, config, index, reference, price, candidate, quantity);
            && 0.0 <= RoundingCost(order.side, f) < config.priceTick * f.quantity
            && (f.priceWasRounded <==> RoundingCost(order.side, f) != 0.0)
  {
    var f := MakeFill(order, candle, config, index, reference, price, candidate, quantity);
    var adverse := AdversePrice(reference, order.side, config);
    var gap := if order.side.Buy? then price - adverse else adverse - price;
    RoundingGap(adverse, config.priceTick, order.side, price);
    RoundingIsGap(order.side, f, adverse, gap, config, reference);
    hide RoundFillPrice, AdversePrice, RoundingCost;
    GapTimes(gap, config.priceTick, quantity);
  }

  lemma MadeShares(order: Order, candle: Candle, config: Config, index: int, reference: real, price: real,
                   candidate: real, quantity: real)
    requires config.Valid() && order.orderType.Market?
    ensures var f := MakeFill(order, candle, config, index, reference, price, candidate, quantity);
            && f.spreadCost * 10000.0 == reference * config.halfSpreadBps * f.quantity
            && f.slippageCost * 10000.0 == reference * config.slippageBps * f.quantity
            && f.referencePrice == reference && f.fee == f.notional * FeeRate(order, config)
  {
    hide AdversePrice;
    CostScales(reference, config.halfSpreadBps, quantity);
    CostScales(reference, config.slippageBps, quantity);
  }

  lemma MadeCosts(order: Order, candle: Candle, config: Config, index: int, reference: real, price: real,
                  candidate: real, quantity: real)
    requires config.Valid() && quantity > 0.0 && order.orderType.Market?
    requires price == RoundFillPrice(AdversePrice(reference, order.side, config), config.priceTick, order.side)
    ensures CostsExplained(order, config, reference,
                           MakeFill(order, candle, config, index, reference, price, candidate, quantity))
  {
    hide MakeFill, RoundFillPrice, AdversePrice, RoundingCost, FeeRate;
    MadeRounding(order, candle, config, index, reference, price, candidate, quantity);
    MadeShares(order, candle, config, index, reference, price, candidate, quantity);
  }

  lemma RoundingGap(adverse: real, tick: real, side: Side, price: real)
    requires tick > 0.0 && price == RoundFillPrice(adverse, tick, side)
    ensures 0.0 <= (if side.Buy? then price - adverse else adverse - price) < tick
  {
    FloorToBounds(adverse, tick);
    FloorToBounds(-adverse, tick);
  }

  lemma CostScales(reference: real, bps: real, quantity: real)
    ensures reference * bps / 10000.0 * quantity * 10000.0 == reference * bps * quantity
  {
  }

  lemma GapTimes(gap: real, tick: real, quantity: real)
    requires 0.0 <= gap < tick && quantity > 0.0
    ensures 0.0 <= gap * quantity < tick * quantity && (gap * quantity != 0.0 <==> gap != 0.0)
  {
    MulNonNegative(gap, quantity);
    MulStrict(gap, tick, quantity);
    if gap > 0.0 { MulStrict(0.0, gap, quantity); }
  }

  lemma RoundingIsGap(side: Side, f: Fill, adverse: real, gap: real, config: Config, reference: real)
    requires adverse == AdversePrice(reference, side, config) && f.referencePrice == reference
    requires gap == (if side.Buy? then f.fillPrice - adverse else adverse - f.fillPrice)
    requires f.notional == f.fillPrice * f.quantity
    requires f.spreadCost == reference * config.halfSpreadBps / 10000.0 * f.quantity
    requires f.slippageCost == reference * config.slippageBps / 10000.0 * f.quantity
    ensures RoundingCost(side, f) == gap * f.quantity
  {
    var spread, slip := reference * config.halfSpreadBps / 10000.0, reference * config.slippageBps / 10000.0;
    var q := f.quantity;
    assert f.spreadCost + f.slippageCost == (spread + slip) * q;
    if side.Buy? {
      assert gap * q == f.fillPrice * q - reference * q - (spread + slip) * q;
    } else {
      assert gap * q == reference * q - (spread + slip) * q - f.fillPrice * q;
    }
  }

  /** Every fill's fee, spread and slippage are what the configuration charges, and together explain its price. */
  lemma CostsExplainTheFill(order: Order, candle: Candle, account: Account, config: Config, index: int,
                            consumed: real, marketReference: Option<real>)
    requires config.Valid() && order.Valid()
    ensures var r := EvaluateOrder(order, candle, account, config, index, consumed, marketReference);
            r.Ok? && r.value.Filling? ==>
              && CostsExplained(order, config, if marketReference.Some? then marketReference.value else candle.open,
                                r.value.fill)
              && r.value.fill.openTime == candle.openTime
  {
    hide FloorTo, Candidate, AdversePrice, RoundFillPrice, RoundingCost;
    var r := EvaluateOrder(order, candle, account, config, index, consumed, marketReference);
    if r.Ok? && r.value.Filling? {
      var reference := if marketReference.Some? then marketReference.value else candle.open;
      var price := FillPrice(order, reference, config).value;
      assert r == FillAt(order, candle, account, config, index, consumed, reference, price);
      var candidate := Candidate(order, candle, account, config, consumed, price);
      var quantity := FloorTo(candidate, config.quantityStep);
      FloorToBounds(candidate, config.quantityStep);
      assert r.value.fill == MakeFill(order, candle, config, index, reference, price, candidate, quantity);
      hide EvaluateOrder, FillAt;
      if order.orderType.Market? { MadeCosts(order, candle, config, index, reference, price, candidate, quantity); }
    }
  }
}
