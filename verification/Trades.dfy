/** Flat-to-flat trades derived from the fills alone, and their agreement with average-cost accounting. */
module Trades {
  import opened Wrappers
  import opened Domain
  import opened Accounting

  datatype TradeError = UnknownOrder | SellExceedsPosition | MissingEntry

  datatype CompletedTrade = CompletedTrade(
    sequence: nat,
    entryIds: seq<FillId>,
    exitIds: seq<FillId>,
    entryIndex: int,
    exitIndex: int,
    holdCandles: int,
    entryCost: real,
    exitProceeds: real,
    grossReturn: real,
    netReturn: real,
    realizedPnl: real,
    winning: bool)

  /** The accumulators of the derivation: one possibly open trade and the completed ones. */
  datatype Derivation = Derivation(
    position: real,
    entryCost: real,
    entryNotional: real,
    exitProceeds: real,
    exitNotional: real,
    entryIndex: Option<int>,
    entryIds: seq<FillId>,
    exitIds: seq<FillId>,
    trades: seq<CompletedTrade>)

  function Flat(trades: seq<CompletedTrade>): Derivation {
    Derivation(0.0, 0.0, 0.0, 0.0, 0.0, None, [], [], trades)
  }

  function Bought(d: Derivation, f: Fill): Derivation {
    var base := if d.position == 0.0 then Flat(d.trades).(entryIndex := Some(f.candleIndex)) else d;
    base.(position := base.position + f.quantity,
          entryCost := base.entryCost + f.notional + f.fee,
          entryNotional := base.entryNotional + f.notional,
          entryIds := base.entryIds + [f.fillId])
  }

  function Sold(d: Derivation, f: Fill): Derivation {
    d.(position := d.position - f.quantity,
       exitProceeds := d.exitProceeds + f.notional - f.fee,
       exitNotional := d.exitNotional + f.notional,
       exitIds := d.exitIds + [f.fillId])
  }

  function Completed(d: Derivation, exitIndex: int): CompletedTrade
    requires d.entryIndex.Some? && d.entryCost > 0.0 && d.entryNotional > 0.0
  {
    var pnl := d.exitProceeds - d.entryCost;
    CompletedTrade(|d.trades| + 1, d.entryIds, d.exitIds, d.entryIndex.value, exitIndex,
                   exitIndex - d.entryIndex.value, d.entryCost, d.exitProceeds,
                   d.exitNotional / d.entryNotional - 1.0, pnl / d.entryCost, pnl, pnl > 0.0)
  }

  function Step(d: Derivation, side: Side, f: Fill): Result<Derivation, TradeError> {
    if side.Buy? then Ok(Bought(d, f))
    else if f.quantity > d.position then Err(SellExceedsPosition)
    else
      var after := Sold(d, f);
      if after.position != 0.0 then Ok(after)
      else if after.entryIndex.None? || after.entryCost <= 0.0 || after.entryNotional <= 0.0 then Err(MissingEntry)
      else Ok(Flat(d.trades + [Completed(after, f.candleIndex)]))
  }

  function Derive(orders: map<OrderId, Order>, fills: seq<Fill>): Result<Derivation, TradeError> {
    if fills == [] then Ok(Flat([]))
    else
      var last := fills[|fills| - 1];
      match Derive(orders, fills[..|fills| - 1])
      case Err(error) => Err(error)
      case Ok(d) => if last.orderId !in orders then Err(UnknownOrder) else Step(d, orders[last.orderId].side, last)
  }

  lemma {:induction false} ErrorsPersist(orders: map<OrderId, Order>, fills: seq<Fill>, k: nat)
    requires k <= |fills| && Derive(orders, fills[..k]).Err?
    ensures Derive(orders, fills) == Derive(orders, fills[..k])
    decreases |fills|
  {
    if k == |fills| {
      assert fills[..k] == fills;
    } else {
      var rest := fills[..|fills| - 1];
      assert rest[..k] == fills[..k];
      ErrorsPersist(orders, rest, k);
    }
  }

  /** `completed_trades`: one pass over the fills computes the derivation, or its first error. */
  method CompletedTrades(orders: map<OrderId, Order>, fills: seq<Fill>)
    returns (r: Result<seq<CompletedTrade>, TradeError>)
    ensures r.Ok? ==> Derive(orders, fills).Ok? && r.value == Derive(orders, fills).value.trades
    ensures r.Err? ==> Derive(orders, fills) == Err(r.error)
  {
    var position, entryCost, entryNotional, exitProceeds, exitNotional := 0.0, 0.0, 0.0, 0.0, 0.0;
    var entryIndex: Option<int> := None;
    var entryIds: seq<FillId>, exitIds: seq<FillId>, trades: seq<CompletedTrade> := [], [], [];
    for i := 0 to |fills|
      invariant Derive(orders, fills[..i]) ==
                Ok(Derivation(position, entryCost, entryNotional, exitProceeds, exitNotional, entryIndex, entryIds,
                    exitIds, trades))
    {
      var fill := fills[i];
      assert fills[..i + 1][..i] == fills[..i];
      if fill.orderId !in orders {
        ErrorsPersist(orders, fills, i + 1);
        return Err(UnknownOrder);
      }
      if orders[fill.orderId].side.Buy? {
        if position == 0.0 {
          entryCost, entryNotional, exitProceeds, exitNotional := 0.0, 0.0, 0.0, 0.0;
          entryIndex, entryIds, exitIds := Some(fill.candleIndex), [], [];
        }
        position := position + fill.quantity;
        entryCost := entryCost + (fill.notional + fill.fee);
        entryNotional := entryNotional + fill.notional;
        entryIds := entryIds + [fill.fillId];
      } else {
        if fill.quantity > position {
          ErrorsPersist(orders, fills, i + 1);
          return Err(SellExceedsPosition);
        }
        position := position - fill.quantity;
        exitProceeds := exitProceeds + (fill.notional - fill.fee);
        exitNotional := exitNotional + fill.notional;
        exitIds := exitIds + [fill.fillId];
        if position == 0.0 {
          if entryIndex.None? || entryCost <= 0.0 || entryNotional <= 0.0 {
            ErrorsPersist(orders, fills, i + 1);
            return Err(MissingEntry);
          }
          var pnl := exitProceeds - entryCost;
          trades := trades + [CompletedTrade(|trades| + 1, entryIds, exitIds, entryIndex.value, fill.candleIndex,
                                             fill.candleIndex - entryIndex.value, entryCost, exitProceeds,
                                             exitNotional / entryNotional - 1.0, pnl / entryCost, pnl, pnl > 0.0)];
          entryCost, entryNotional, exitProceeds, exitNotional := 0.0, 0.0, 0.0, 0.0;
          entryIndex, entryIds, exitIds := None, [], [];
        }
      }
    }
    assert fills[..|fills|] == fills;
    return Ok(trades);
  }

  // ---------------------------------------------------------------- two accounting methods agree

  function TotalPnl(trades: seq<CompletedTrade>): real {
    if trades == [] then 0.0 else TotalPnl(trades[..|trades| - 1]) + trades[|trades| - 1].realizedPnl
  }

  function TradeIds(trades: seq<CompletedTrade>): multiset<FillId> {
    if trades == [] then multiset{}
    else
      var last := trades[|trades| - 1];
      TradeIds(trades[..|trades| - 1]) + multiset(last.entryIds) + multiset(last.exitIds)
  }

  function AttributedIds(d: Derivation): multiset<FillId> {
    TradeIds(d.trades) + multiset(d.entryIds) + multiset(d.exitIds)
  }

  function FillIds(fills: seq<Fill>): multiset<FillId> {
    if fills == [] then multiset{} else FillIds(fills[..|fills| - 1]) + multiset{fills[|fills| - 1].fillId}
  }

  /** Average-cost P&L and flat-to-flat P&L differ by exactly the open trade's unreleased part. */
  ghost predicate Agree(a: Account, d: Derivation) {
    && d.position == a.position
    && a.realizedPnl - TotalPnl(d.trades) == d.exitProceeds - (d.entryCost - a.costBasis)
    && (d.position == 0.0 ==> d == Flat(d.trades))
    && (d.position > 0.0 ==> d.entryIndex.Some? && d.entryCost > 0.0 && d.entryNotional > 0.0)
  }

  lemma AppendTrade(trades: seq<CompletedTrade>, t: CompletedTrade)
    ensures TotalPnl(trades + [t]) == TotalPnl(trades) + t.realizedPnl
    ensures TradeIds(trades + [t]) == TradeIds(trades) + multiset(t.entryIds) + multiset(t.exitIds)
  {
    assert (trades + [t])[..|trades|] == trades;
  }

  lemma StepAgrees(initial: real, a: Account, d: Derivation, side: Side, f: Fill)
    requires Balanced(initial, a) && Agree(a, d) && f.Valid()
    requires side.SellToClose? ==> f.quantity <= a.position
    ensures Step(d, side, f).Ok?
    ensures Agree(Updated(a, side, f), Step(d, side, f).value)
  {
    if side.SellToClose? && f.quantity == a.position {
      AppendTrade(d.trades, Completed(Sold(d, f), f.candleIndex));
    }
  }

  lemma StepPartitions(d: Derivation, side: Side, f: Fill)
    requires d.position == 0.0 ==> d == Flat(d.trades)
    requires Step(d, side, f).Ok?
    ensures AttributedIds(Step(d, side, f).value) == AttributedIds(d) + multiset{f.fillId}
  {
    var next := Step(d, side, f).value;
    if side.Buy? {
      assert next.entryIds == (if d.position == 0.0 then [] else d.entryIds) + [f.fillId];
    } else {
      var after := Sold(d, f);
      assert after.exitIds == d.exitIds + [f.fillId];
      if after.position == 0.0 {
        AppendTrade(d.trades, Completed(after, f.candleIndex));
      }
    }
  }

  /** Entries and exits happen on the candles of the fills. */
  lemma {:induction false} TradesHappenOnFills(orders: map<OrderId, Order>, fills: seq<Fill>, low: int)
    requires forall i :: 0 <= i < |fills| ==> fills[i].candleIndex >= low
    requires Derive(orders, fills).Ok?
    ensures var d := Derive(orders, fills).value;
            && (d.entryIndex.Some? ==> d.entryIndex.value >= low)
            && forall k :: 0 <= k < |d.trades| ==> d.trades[k].entryIndex >= low && d.trades[k].exitIndex >= low
  {
    if fills != [] {
      TradesHappenOnFills(orders, fills[..|fills| - 1], low);
    }
  }

  /** The derivation reads nothing of an order but its side. */
  lemma {:induction false} DeriveReadsSides(orders: map<OrderId, Order>, orders': map<OrderId, Order>, fills: seq<Fill>)
    requires forall i :: 0 <= i < |fills| ==>
               fills[i].orderId in orders && fills[i].orderId in orders'
               && orders[fills[i].orderId].side == orders'[fills[i].orderId].side
    ensures Derive(orders, fills) == Derive(orders', fills)
  {
    if fills != [] {
      DeriveReadsSides(orders, orders', fills[..|fills| - 1]);
    }
  }
}
