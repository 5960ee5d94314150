/** A label is the completed trade that a backtest would record for the round trip it stands for. */
module RoundTrips {
  import opened Wrappers
  import opened Domain
  import opened Labels
  import opened FillRule
  import Simulator
  import opened Trades

  /** A market fill of some quantity at the open of a candle, with the taker fee. */
  ghost predicate IsLeg(f: Fill, p: LabelPolicy, c: seq<Candle>, index: nat, side: Side)
    requires index < |c|
  {
    && f.candleIndex == index && f.quantity > 0.0
    && IsMarketPrice(side, c[index].open, p.simulation, f.fillPrice)
    && f.notional == f.fillPrice * f.quantity
    && f.fee == f.notional * p.simulation.takerFeeRate
  }

  ghost predicate IsPriced(side: Side, reference: real, config: Config) {
    exists price :: IsMarketPrice(side, reference, config, price)
  }

  function RoundedPrice(side: Side, reference: real, config: ValidConfig): real {
    Simulator.RoundFillPrice(Simulator.AdversePrice(reference, side, config), config.priceTick, side)
  }

  lemma PricedIffPositive(side: Side, reference: real, config: ValidConfig)
    requires reference > 0.0
    ensures IsPriced(side, reference, config) <==> RoundedPrice(side, reference, config) > 0.0
    ensures IsPriced(side, reference, config) ==>
              IsMarketPrice(side, reference, config, RoundedPrice(side, reference, config))
  {
    var rounded := RoundedPrice(side, reference, config);
    RoundedIsMarketPrice(side, reference, config, rounded);
    if IsPriced(side, reference, config) {
      var price :| IsMarketPrice(side, reference, config, price);
      RoundedIsMarketPrice(side, reference, config, price);
    }
    hide IsMarketPrice, Simulator.AdversePrice, Simulator.RoundFillPrice;
  }

  /** Without a positive price after costs there is none after rounding. */
  lemma CostsFirst(reference: real, config: ValidConfig)
    requires reference > 0.0
    ensures Simulator.AdversePrice(reference, Buy, config) > 0.0
    ensures Simulator.AdversePrice(reference, SellToClose, config) <= 0.0 ==>
              RoundedPrice(SellToClose, reference, config) <= 0.0
  {
    AdverseIsAdverse(reference, config);
    RoundingIsAdverse(Simulator.AdversePrice(reference, SellToClose, config), config.priceTick);
    hide Simulator.AdversePrice, Simulator.RoundFillPrice;
  }

  /** A decision is observed exactly when both opens have a market price, and then at those prices. */
  lemma ObservedIffPriced(p: LabelPolicy, c: seq<Candle>, d: nat)
    requires p.Valid() && Sound(c) && d + 1 + p.horizon < |c|
    ensures Observe(p, c, d).Ok? <==>
              IsPriced(Buy, c[d + 1].open, p.simulation)
              && IsPriced(SellToClose, c[d + 1 + p.horizon].open, p.simulation)
    ensures Observe(p, c, d).Ok? ==>
              var l := Observe(p, c, d).value;
              && l.decision == d && l.entry == d + 1 && l.exit == l.entry + p.horizon
              && IsMarketPrice(Buy, c[l.entry].open, p.simulation, l.entryFill)
              && IsMarketPrice(SellToClose, c[l.exit].open, p.simulation, l.exitFill)
  {
    var entry, exit := d + 1, d + 1 + p.horizon;
    assert SoundCandle(c, entry) && SoundCandle(c, exit);
    CostsFirst(c[entry].open, p.simulation);
    CostsFirst(c[exit].open, p.simulation);
    PricedIffPositive(Buy, c[entry].open, p.simulation);
    PricedIffPositive(SellToClose, c[exit].open, p.simulation);
    hide Simulator.AdversePrice, Simulator.RoundFillPrice, IsMarketPrice, IsPriced, NetReturn, Sound, SoundCandle,
         LabelPolicy.HurdleBps;
  }

  lemma Product(x: real, y: real)
    requires x > 0.0 && y > 0.0
    ensures x * y > 0.0
  {
  }

  lemma CancelQuantity(x: real, y: real, q: real)
    requires y > 0.0 && q > 0.0
    ensures y * q > 0.0 && (x * q) / (y * q) == x / y
  {
    Product(y, q);
    var r := x / y;
    assert x == r * y;
    Reorder(r, y, q);
    QuotientIs(x * q, r, y * q);
  }

  lemma Reorder(r: real, y: real, q: real)
    ensures (r * y) * q == r * (y * q)
  {
  }

  lemma FeeOfNotional(price: real, q: real, rate: real)
    ensures price * q + price * q * rate == (price + price * rate) * q
    ensures price * q - price * q * rate == (price - price * rate) * q
  {
  }

  lemma Subtract(x: real, y: real, q: real)
    ensures x * q - y * q == (x - y) * q
  {
  }

  /** Two legs of one quantity make one completed trade. */
  lemma TwoLegsMakeATrade(orders: map<OrderId, Order>, buy: Fill, sell: Fill)
    requires buy.orderId in orders && orders[buy.orderId].side.Buy?
    requires sell.orderId in orders && orders[sell.orderId].side.SellToClose?
    requires buy.quantity == sell.quantity > 0.0 && buy.notional > 0.0 && buy.fee >= 0.0
    ensures Derive(orders, [buy, sell]).Ok? && |Derive(orders, [buy, sell]).value.trades| == 1
    ensures var t := Derive(orders, [buy, sell]).value.trades[0];
            var cost, proceeds := buy.notional + buy.fee, sell.notional - sell.fee;
            && cost > 0.0 && t.realizedPnl == proceeds - cost
            && t.entryIndex == buy.candleIndex && t.exitIndex == sell.candleIndex
            && t.holdCandles == sell.candleIndex - buy.candleIndex
            && t.grossReturn == sell.notional / buy.notional - 1.0
            && t.netReturn == (proceeds - cost) / cost
  {
    var first, both := [buy], [buy, sell];
    assert first[..0] == [] && both[..1] == first;
    assert Derive(orders, []) == Ok(Flat([]));
    assert Derive(orders, first) == Ok(Bought(Flat([]), buy));
  }

  lemma NonNegativeFee(notional: real, rate: real)
    requires notional > 0.0 && rate >= 0.0
    ensures notional * rate >= 0.0
  {
  }

  /**
   For every observed decision: whatever quantity is bought at its entry open and sold at its exit open, the fills
   derive one completed trade, and label and trade agree on the candles, on gross and net return, and so on whether
   the hurdle was beaten.
   */
  lemma LabelsAreTrades(p: LabelPolicy, c: seq<Candle>, d: nat, orders: map<OrderId, Order>, buy: Fill, sell: Fill)
    requires p.Valid() && Sound(c) && d + 1 + p.horizon < |c|
    requires buy.orderId in orders && orders[buy.orderId].side.Buy?
    requires sell.orderId in orders && orders[sell.orderId].side.SellToClose?
    requires IsLeg(buy, p, c, d + 1, Buy) && IsLeg(sell, p, c, d + 1 + p.horizon, SellToClose)
    requires buy.quantity == sell.quantity
    ensures Observe(p, c, d).Ok? && Derive(orders, [buy, sell]).Ok?
    ensures |Derive(orders, [buy, sell]).value.trades| == 1
    ensures var l, t := Observe(p, c, d).value, Derive(orders, [buy, sell]).value.trades[0];
            && t.entryIndex == l.entry && t.exitIndex == l.exit && t.holdCandles == p.horizon
            && t.grossReturn == l.grossReturn && t.netReturn == l.netReturn
            && (l.positive <==> t.netReturn > p.HurdleBps() / 10000.0)
  {
    hide IsMarketPrice, NetReturn, Derive, Sound, SoundCandle, LabelPolicy.HurdleBps, Simulator.AdversePrice,
         Simulator.RoundFillPrice, IsPriced;
    Priced(Buy, c[d + 1].open, p.simulation, buy.fillPrice);
    Priced(SellToClose, c[d + 1 + p.horizon].open, p.simulation, sell.fillPrice);
    ObservedIffPriced(p, c, d);
    var l := Observe(p, c, d).value;
    ObservationReturns(p, c, d);
    hide Observe;
    SamePrice(p, c, d + 1, Buy, buy.fillPrice, l.entryFill);
    SamePrice(p, c, d + 1 + p.horizon, SellToClose, sell.fillPrice, l.exitFill);
    LegsReturn(p, buy, sell, l.entryFill, l.exitFill);
    TwoLegsMakeATrade(orders, buy, sell);
  }

  lemma Priced(side: Side, reference: real, config: ValidConfig, price: real)
    requires IsMarketPrice(side, reference, config, price)
    ensures IsPriced(side, reference, config)
  {
  }

  lemma ObservationReturns(p: LabelPolicy, c: seq<Candle>, d: nat)
    requires p.Valid() && Sound(c) && d + 1 + p.horizon < |c| && Observe(p, c, d).Ok?
    ensures var l := Observe(p, c, d).value;
            && l.entryFill > 0.0 && l.grossReturn == l.exitFill / l.entryFill - 1.0
            && l.netReturn == NetReturn(l.entryFill, l.exitFill, p)
            && (l.positive <==> l.netReturn > p.HurdleBps() / 10000.0)
  {
    hide NetReturn, Sound, SoundCandle, LabelPolicy.HurdleBps, Simulator.AdversePrice, Simulator.RoundFillPrice;
  }

  lemma SamePrice(p: LabelPolicy, c: seq<Candle>, index: nat, side: Side, x: real, y: real)
    requires index < |c| && Sound(c)
    requires IsMarketPrice(side, c[index].open, p.simulation, x) && IsMarketPrice(side, c[index].open, p.simulation, y)
    ensures x == y
  {
    assert SoundCandle(c, index);
    RoundedIsMarketPrice(side, c[index].open, p.simulation, x);
    RoundedIsMarketPrice(side, c[index].open, p.simulation, y);
  }

  lemma LegsReturn(p: LabelPolicy, buy: Fill, sell: Fill, entry: real, exit: real)
    requires p.Valid() && entry > 0.0 && buy.quantity == sell.quantity > 0.0
    requires buy.notional == entry * buy.quantity && buy.fee == buy.notional * p.simulation.takerFeeRate
    requires sell.notional == exit * sell.quantity && sell.fee == sell.notional * p.simulation.takerFeeRate
    ensures buy.notional > 0.0 && buy.fee >= 0.0 && buy.notional + buy.fee > 0.0
    ensures sell.notional / buy.notional == exit / entry
    ensures var cost, proceeds := buy.notional + buy.fee, sell.notional - sell.fee;
            (proceeds - cost) / cost == NetReturn(entry, exit, p)
  {
    var q, rate := buy.quantity, p.simulation.takerFeeRate;
    GrossScales(entry, exit, q, buy.notional, sell.notional);
    NonNegativeFee(buy.notional, rate);
    EntryCostPositive(entry, p);
    CostScales(entry, q, rate, buy.notional, buy.fee);
    ProceedsScale(exit, q, rate, sell.notional, sell.fee);
    ReturnScales(entry + Fee(entry, p), exit - Fee(exit, p), q, buy.notional + buy.fee, sell.notional - sell.fee);
  }

  lemma GrossScales(entry: real, exit: real, q: real, bought: real, sold: real)
    requires entry > 0.0 && q > 0.0 && bought == entry * q && sold == exit * q
    ensures bought > 0.0 && sold / bought == exit / entry
  {
    CancelQuantity(exit, entry, q);
  }

  lemma CostScales(price: real, q: real, rate: real, notional: real, fee: real)
    requires notional == price * q && fee == notional * rate
    ensures notional + fee == (price + price * rate) * q
  {
    FeeOfNotional(price, q, rate);
  }

  lemma ProceedsScale(price: real, q: real, rate: real, notional: real, fee: real)
    requires notional == price * q && fee == notional * rate
    ensures notional - fee == (price - price * rate) * q
  {
    FeeOfNotional(price, q, rate);
  }

  lemma ReturnScales(cost: real, proceeds: real, q: real, allCost: real, allProceeds: real)
    requires cost > 0.0 && q > 0.0 && allCost == cost * q && allProceeds == proceeds * q
    ensures allCost > 0.0 && (allProceeds - allCost) / allCost == (proceeds - cost) / cost
  {
    Subtract(proceeds, cost, q);
    CancelQuantity(proceeds - cost, cost, q);
  }
}
