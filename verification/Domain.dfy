/**
 The immutable records of the research domain: intents, orders, fills, candles, accounts and ledger
 entries, each with the checks its constructor makes. `Decimal` is an exact real. SHA-256 is an
 injective function: an order identity is the digest of (decision, intent), a fill identity is the
 tuple that is hashed.
 */
module Domain {
  import opened Wrappers

  datatype Side = Buy | SellToClose
  datatype OrderType = Market | Limit
  datatype TimeInForce = IOC | BAR | GTC
  datatype Status = Accepted | PartiallyFilled | Filled | Cancelled | Expired | Rejected
  datatype TimingPolicy = NextCandle | SameCloseDiagnostic
  datatype LimitFillPolicy = Conservative | OptimisticTouchDiagnostic

  /** Instants and durations are microseconds since 1970-01-01 UTC. */
  const MILLISECOND := 1000
  const MINUTE := 60_000_000

  datatype Timeframe = M1 | M5 | M15 | H1 | H4 | D1 | W1 {
    function Duration(): (d: int)
      ensures d >= MINUTE
    {
      match this
      case M1 => MINUTE
      case M5 => 5 * MINUTE
      case M15 => 15 * MINUTE
      case H1 => 60 * MINUTE
      case H4 => 240 * MINUTE
      case D1 => 1440 * MINUTE
      case W1 => 10080 * MINUTE
    }
  }

  type OrderId = nat

  function Min(x: real, y: real): real { if x <= y then x else y }

  function Max(x: real, y: real): real { if x >= y then x else y }

  function Abs(x: real): real { if x >= 0.0 then x else -x }

  predicate ValidLimit(orderType: OrderType, limitPrice: Option<real>) {
    && (orderType.Limit? ==> limitPrice.Some?)
    && (orderType.Market? ==> limitPrice.None?)
    && (limitPrice.Some? ==> limitPrice.value > 0.0)
  }

  datatype Intent = Intent(
    side: Side,
    orderType: OrderType,
    quantity: real,
    limitPrice: Option<real>,
    tif: TimeInForce)
  {
    predicate Valid() {
      quantity > 0.0 && ValidLimit(orderType, limitPrice)
    }
  }

  datatype Order = Order(
    orderId: OrderId,
    decisionSequence: int,
    intentSequence: int,
    created: int,
    eligible: int,
    expiresAfter: int,
    side: Side,
    orderType: OrderType,
    requested: real,
    filled: real,
    limitPrice: Option<real>,
    tif: TimeInForce,
    status: Status)
  {
    predicate Active() {
      status.Accepted? || status.PartiallyFilled?
    }

    function Remaining(): real {
      requested - filled
    }

    predicate Valid() {
      && decisionSequence >= 1
      && intentSequence >= 1
      && 0 <= created <= eligible <= expiresAfter
      && requested > 0.0
      && 0.0 <= filled <= requested
      && ValidLimit(orderType, limitPrice)
      && (status.Accepted? ==> filled == 0.0)
      && (status.PartiallyFilled? ==> 0.0 < filled < requested)
      && (status.Filled? ==> filled == requested)
    }
  }

  datatype FillId = FillId(orderId: OrderId, candleIndex: int, quantity: real, price: real)

  datatype Fill = Fill(
    fillId: FillId,
    orderId: OrderId,
    candleIndex: int,
    openTime: int,
    quantity: real,
    referencePrice: real,
    fillPrice: real,
    notional: real,
    fee: real,
    spreadCost: real,
    slippageCost: real,
    priceWasRounded: bool,
    quantityWasRounded: bool)
  {
    predicate Valid() {
      && candleIndex >= 0
      && quantity > 0.0
      && referencePrice > 0.0
      && fillPrice > 0.0
      && notional > 0.0
      && fee >= 0.0
      && spreadCost >= 0.0
      && slippageCost >= 0.0
      && notional == quantity * fillPrice
    }
  }

  datatype Candle = Candle(
    instrument: string,
    timeframe: Timeframe,
    openTime: int,
    closeTime: int,
    open: real,
    high: real,
    low: real,
    close: real,
    volume: real,
    completed: bool)
  {
    /** The geometry that `validate_candle` demands of every candle of a verified dataset. */
    predicate Valid() {
      && open > 0.0 && high > 0.0 && low > 0.0 && close > 0.0
      && volume >= 0.0
      && low <= open <= high
      && low <= close <= high
    }
  }

  datatype Config = Config(
    makerFeeRate: real,
    takerFeeRate: real,
    halfSpreadBps: real,
    slippageBps: real,
    latencyBars: int,
    priceTick: real,
    quantityStep: real,
    minQuantity: real,
    minNotional: real,
    maxVolumeParticipation: real,
    maxActiveCandles: int,
    timing: TimingPolicy,
    limitFill: LimitFillPolicy)
  {
    predicate Valid() {
      && makerFeeRate >= 0.0 && takerFeeRate >= 0.0
      && halfSpreadBps >= 0.0 && slippageBps >= 0.0
      && priceTick > 0.0 && quantityStep > 0.0 && minQuantity > 0.0 && minNotional > 0.0
      && latencyBars >= 0
      && maxActiveCandles >= 1
      && 0.0 < maxVolumeParticipation <= 1.0
    }
  }

  type ValidConfig = c: Config | c.Valid()
    witness Config(0.0, 0.0, 0.0, 0.0, 0, 1.0, 1.0, 1.0, 1.0, 1.0, 1, NextCandle, Conservative)

  type ValidIntent = i: Intent | i.Valid() witness Intent(Buy, Market, 1.0, None, BAR)

  datatype Account = Account(
    cash: real,
    reservedCash: real,
    position: real,
    averagePrice: real,
    realizedPnl: real,
    fees: real,
    executionCosts: real,
    equity: real,
    peak: real,
    drawdown: real,
    costBasis: real)
  {
    /** What the `AccountSnapshot` constructor accepts. */
    predicate Valid() {
      && cash >= 0.0 && reservedCash >= 0.0 && position >= 0.0 && averagePrice >= 0.0
      && fees >= 0.0 && executionCosts >= 0.0
      && equity >= 0.0 && peak >= 0.0 && drawdown >= 0.0 && costBasis >= 0.0
      && reservedCash <= cash
      && (position == 0.0 ==> averagePrice == 0.0 && costBasis == 0.0)
      && (position != 0.0 ==> averagePrice > 0.0)
      && drawdown <= 1.0
      && equity <= peak
    }

    /** A missing cost basis is inferred from the average price when the snapshot is built. */
    function Normalised(): Account {
      if position != 0.0 && costBasis == 0.0 then this.(costBasis := averagePrice * position) else this
    }
  }

  function InitialAccount(cash: real): Account {
    Account(cash, 0.0, 0.0, 0.0, 0.0, 0.0, 0.0, cash, cash, 0.0, 0.0)
  }

  datatype LedgerEntry = LedgerEntry(
    sequence: int,
    side: Side,
    orderId: OrderId,
    fillId: Option<FillId>,
    cashDelta: real,
    positionDelta: real,
    feeDelta: real,
    resultingCash: real,
    resultingPosition: real)
  {
    predicate Valid() {
      sequence >= 1 && feeDelta >= 0.0 && resultingCash >= 0.0 && resultingPosition >= 0.0
    }
  }
}
