/** Average-cost accounting for one long-only instrument, and the ledger reconciliation. */
module Accounting {
  import opened Wrappers
  import opened Domain
  import Simulator

  datatype AccountingError =
    | BadSequence | ReservedCash | IdentityMismatch | InactiveOrder | ExceedsRemainder
    | ExceedsCash | ExceedsPosition | NegativeBalance | InvalidSnapshot | InvalidEntry | BadClose
    | BadInitialCash | DuplicateFill | UnorderedSequence | LedgerNegative
    | LedgerCash | LedgerPosition | TerminalCash | TerminalPosition | TerminalFees
    | FlatCostBasis | FlatProfit

  function Drawdown(equity: real, peak: real): real {
    if peak == 0.0 then 0.0 else (peak - equity) / peak
  }

  function Released(a: Account, f: Fill): real {
    if a.position == f.quantity || a.position == 0.0 then a.costBasis
    else a.costBasis * f.quantity / a.position
  }

  function CashDelta(side: Side, f: Fill): real {
    if side.Buy? then -(f.notional + f.fee) else f.notional - f.fee
  }

  /** The account after a fill, before the snapshot constructor has looked at it. */
  function Updated(a: Account, side: Side, f: Fill): Account {
    var position := if side.Buy? then a.position + f.quantity else a.position - f.quantity;
    var basis := if side.Buy? then a.costBasis + f.notional + f.fee else a.costBasis - Released(a, f);
    var cash := a.cash + CashDelta(side, f);
    var equity := cash + position * f.fillPrice;
    var peak := Max(a.peak, equity);
    Account(cash, 0.0, position, if position == 0.0 then 0.0 else basis / position,
            if side.Buy? then a.realizedPnl else a.realizedPnl + CashDelta(side, f) - Released(a, f),
            a.fees + f.fee, a.executionCosts + f.spreadCost + f.slippageCost,
            equity, peak, Drawdown(equity, peak), basis)
  }

  function Entry(a: Account, o: Order, f: Fill, sequence: int): LedgerEntry {
    var delta := if o.side.Buy? then f.quantity else -f.quantity;
    LedgerEntry(sequence, o.side, o.orderId, Some(f.fillId), CashDelta(o.side, f), delta, f.fee,
                a.cash + CashDelta(o.side, f), a.position + delta)
  }

  function ApplyFill(a: Account, o: Order, f: Fill, sequence: int): Result<(Account, LedgerEntry), AccountingError> {
    if sequence < 1 then Err(BadSequence)
    else if a.reservedCash != 0.0 then Err(ReservedCash)
    else if f.orderId != o.orderId then Err(IdentityMismatch)
    else if !o.Active() then Err(InactiveOrder)
    else if f.quantity > o.Remaining() then Err(ExceedsRemainder)
    else if o.side.Buy? && f.notional + f.fee > a.cash then Err(ExceedsCash)
    else if o.side.SellToClose? && f.quantity > a.position then Err(ExceedsPosition)
    else
      var updated := Updated(a, o.side, f);
      var entry := Entry(a, o, f, sequence);
      if updated.cash < 0.0 || updated.position < 0.0 then Err(NegativeBalance)
      else if !updated.Valid() then Err(InvalidSnapshot)
      else if !entry.Valid() then Err(InvalidEntry)
      else Ok((updated.Normalised(), entry))
  }

  function MarkToMarket(a: Account, close: real): Result<Account, AccountingError> {
    if close <= 0.0 then Err(BadClose)
    else
      var equity := a.cash + a.position * close;
      var peak := Max(a.peak, equity);
      var marked := a.(equity := equity, peak := peak, drawdown := Drawdown(equity, peak));
      if !marked.Valid() then Err(InvalidSnapshot) else Ok(marked.Normalised())
  }

  /** The balance identities every account of a run satisfies. */
  ghost predicate Balanced(initial: real, a: Account) {
    && a.Valid()
    && a.reservedCash == 0.0
    && a.peak > 0.0
    && a.cash + a.costBasis == initial + a.realizedPnl
    && a.averagePrice * a.position == a.costBasis
    && (a.position > 0.0 ==> a.costBasis > 0.0)
  }

  lemma InitialIsBalanced(initial: real)
    requires initial > 0.0
    ensures Balanced(initial, InitialAccount(initial))
  {
  }

  lemma DrawdownInRange(equity: real, peak: real)
    requires 0.0 <= equity <= peak && peak > 0.0
    ensures 0.0 <= Drawdown(equity, peak) <= 1.0
  {
    var d := (peak - equity) / peak;
    assert d * peak == peak - equity;
    if d < 0.0 { Simulator.MulStrict(d, 0.0, peak); }
    if d > 1.0 { Simulator.MulStrict(1.0, d, peak); }
  }

  lemma QuotientPositive(x: real, y: real)
    requires x > 0.0 && y > 0.0
    ensures x / y > 0.0 && (x / y) * y == x
  {
  }

  /** Selling part of a position releases a strict part of its cost basis. */
  lemma ReleasedIsPart(a: Account, f: Fill)
    requires 0.0 < f.quantity < a.position && a.costBasis > 0.0
    ensures 0.0 < Released(a, f) < a.costBasis
  {
    ProportionIsPart(a.costBasis, f.quantity, a.position);
  }

  lemma ProportionIsPart(basis: real, part: real, whole: real)
    requires 0.0 < part < whole && basis > 0.0
    ensures 0.0 < basis * part / whole < basis
  {
    var r := basis * part / whole;
    assert r * whole == basis * part;
    assert basis * part > 0.0;
    if r <= 0.0 { Simulator.MulMonotone(r, 0.0, whole); }
    if r >= basis { ProductGap(basis, r, part, whole); }
  }

  lemma ProductGap(basis: real, r: real, part: real, whole: real)
    requires 0.0 < part < whole && 0.0 < basis <= r
    ensures basis * part < r * whole
  {
    Simulator.MulMonotone(basis, r, whole);
    Simulator.MulStrict(part, whole, basis);
  }

  /** Hypotheses under which the engine applies a fill: the order book supplies all of them. */
  ghost predicate Applicable(a: Account, o: Order, f: Fill, sequence: int) {
    && sequence >= 1
    && f.Valid()
    && f.orderId == o.orderId
    && o.Active()
    && f.quantity <= o.Remaining()
    && (o.side.Buy? ==> f.notional + f.fee <= a.cash)
    && (o.side.SellToClose? ==> f.quantity <= a.position)
  }

  /** The worst loss from the highest equity so far, as a fraction of it. */
  lemma DrawdownIsLoss(equity: real, peak: real)
    requires peak > 0.0
    ensures Drawdown(equity, peak) * peak == peak - equity
  {
  }

  lemma ShareOfBasis(basis: real, average: real, part: real, whole: real)
    requires whole > 0.0 && basis == average * whole
    ensures basis * part / whole == average * part
  {
    var share := basis * part / whole;
    assert share * whole == average * part * whole;
    if share < average * part { Simulator.MulStrict(share, average * part, whole); }
    if share > average * part { Simulator.MulStrict(average * part, share, whole); }
  }

  lemma SameQuotient(x: real, y: real, k: real)
    requires k > 0.0 && x == y * k
    ensures x / k == y
  {
  }

  /** Equity at a price, the highest equity so far, and the loss from it. */
  ghost predicate MarkedAt(a: Account, u: Account, price: real) {
    && u.equity == u.cash + u.position * price
    && u.peak == Max(a.peak, u.equity)
    && u.drawdown * u.peak == u.peak - u.equity
  }

  ghost predicate TakesPurchase(a: Account, f: Fill, u: Account) {
    && u.cash == a.cash - f.notional - f.fee
    && u.position == a.position + f.quantity
    && u.costBasis == a.costBasis + f.notional + f.fee
    && u.realizedPnl == a.realizedPnl
  }

  ghost predicate TakesSale(a: Account, f: Fill, u: Account) {
    && u.cash == a.cash + f.notional - f.fee
    && u.position == a.position - f.quantity
    && u.realizedPnl == a.realizedPnl + (f.notional - f.fee - a.averagePrice * f.quantity)
    && (u.position > 0.0 ==> u.averagePrice == a.averagePrice)
    && (u.position == 0.0 ==> u.averagePrice == 0.0 && u.costBasis == 0.0)
  }

  /** What one fill does to an account, in terms of average cost. */
  ghost predicate TakesFill(a: Account, side: Side, f: Fill, u: Account) {
    && u.fees == a.fees + f.fee
    && u.executionCosts == a.executionCosts + f.spreadCost + f.slippageCost
    && MarkedAt(a, u, f.fillPrice)
    && if side.Buy? then TakesPurchase(a, f, u) else TakesSale(a, f, u)
  }

  lemma ReleasedIsAverage(initial: real, a: Account, f: Fill)
    requires Balanced(initial, a) && 0.0 < f.quantity <= a.position
    ensures Released(a, f) == a.averagePrice * f.quantity
  {
    ShareOfBasis(a.costBasis, a.averagePrice, f.quantity, a.position);
  }

  lemma RestKeepsAverage(basis: real, average: real, part: real, whole: real)
    requires part < whole && basis == average * whole
    ensures (basis - average * part) / (whole - part) == average
  {
    assert basis - average * part == average * (whole - part);
    SameQuotient(basis - average * part, average, whole - part);
  }

  lemma SoldAtAverageCost(initial: real, a: Account, f: Fill)
    requires Balanced(initial, a) && 0.0 < f.quantity <= a.position
    ensures TakesSale(a, f, Updated(a, SellToClose, f))
  {
    ReleasedIsAverage(initial, a, f);
    if f.quantity < a.position { RestKeepsAverage(a.costBasis, a.averagePrice, f.quantity, a.position); }
    assert f.quantity == a.position ==> Released(a, f) == a.costBasis;
    hide Drawdown, Released, Balanced;
  }

  /** A sale realizes its proceeds less the average cost of what was sold, and leaves the average cost of the rest. */
  lemma FillsAtAverageCost(initial: real, a: Account, o: Order, f: Fill, sequence: int)
    requires Balanced(initial, a) && Applicable(a, o, f, sequence)
    ensures TakesFill(a, o.side, f, Updated(a, o.side, f))
  {
    var u := Updated(a, o.side, f);
    assert u.peak > 0.0;
    DrawdownIsLoss(u.equity, u.peak);
    if o.side.SellToClose? { SoldAtAverageCost(initial, a, f); }
    hide Drawdown, Released, Balanced, TakesSale;
  }

  /** After a fill the cost basis is positive exactly while something is owned. */
  lemma BasisFollowsPosition(initial: real, a: Account, o: Order, f: Fill, sequence: int)
    requires Balanced(initial, a) && Applicable(a, o, f, sequence)
    ensures var u := Updated(a, o.side, f);
            && u.position >= 0.0
            && (u.position > 0.0 ==> u.costBasis > 0.0)
            && (u.position == 0.0 ==> u.costBasis == 0.0)
  {
    hide Drawdown;
    if o.side.SellToClose? && f.quantity < a.position {
      ReleasedIsPart(a, f);
    }
  }

  lemma UpdatedIsValid(initial: real, a: Account, o: Order, f: Fill, sequence: int)
    requires Balanced(initial, a) && Applicable(a, o, f, sequence)
    requires a.cash + CashDelta(o.side, f) >= 0.0
    ensures Balanced(initial, Updated(a, o.side, f))
    ensures Updated(a, o.side, f).Normalised() == Updated(a, o.side, f)
  {
    hide Drawdown, Released;
    var u := Updated(a, o.side, f);
    BasisFollowsPosition(initial, a, o, f, sequence);
    if u.position > 0.0 {
      QuotientPositive(u.costBasis, u.position);
    }
    Simulator.MulNonNegative(u.position, f.fillPrice);
    DrawdownInRange(u.equity, u.peak);
  }

  /**
   Against a balanced account the engine's fills are refused in exactly one way: a sale whose fee
   is larger than its proceeds and the cash at hand.
   */
  lemma FillIsAppliedIffSolvent(initial: real, a: Account, o: Order, f: Fill, sequence: int)
    requires Balanced(initial, a) && Applicable(a, o, f, sequence)
    ensures ApplyFill(a, o, f, sequence).Ok? <==> a.cash + CashDelta(o.side, f) >= 0.0
    ensures ApplyFill(a, o, f, sequence).Err? ==>
              ApplyFill(a, o, f, sequence).error == NegativeBalance && o.side.SellToClose?
    ensures ApplyFill(a, o, f, sequence).Ok? ==>
              && ApplyFill(a, o, f, sequence).value == (Updated(a, o.side, f), Entry(a, o, f, sequence))
              && Balanced(initial, Updated(a, o.side, f))
  {
    if a.cash + CashDelta(o.side, f) >= 0.0 {
      UpdatedIsValid(initial, a, o, f, sequence);
    }
  }

  lemma FeeWithinProceeds(notional: real, rate: real)
    requires notional >= 0.0 && rate <= 1.0
    ensures notional * rate <= notional
  {
    Simulator.MulMonotone(rate, 1.0, notional);
  }

  /** A sale that would overdraw: one unit of cash cost, no cash left, sold with the given fee rate. */
  function OverdrawnAccount(): Account {
    Account(0.0, 0.0, 1.0, 1.0, 0.0, 0.0, 0.0, 1.0, 1.0, 0.0, 1.0)
  }

  function SellOrder(): Order {
    Order(0, 1, 1, 0, 0, 0, SellToClose, Market, 1.0, 0.0, None, BAR, Accepted)
  }

  function UnitSale(rate: real): Fill {
    Fill(FillId(0, 0, 1.0, 1.0), 0, 0, 0, 1.0, 1.0, 1.0, 1.0, rate, 0.0, 0.0, false, false)
  }

  /** Applying a fill charged at this rate succeeds, if the engine may apply it at all. */
  ghost predicate AppliesAtRate(rate: real, initial: real, a: Account, o: Order, f: Fill, sequence: int) {
    Balanced(initial, a) && Applicable(a, o, f, sequence) && f.fee == f.notional * rate
    ==> ApplyFill(a, o, f, sequence).Ok?
  }

  lemma OverdrawnIsRefused(rate: real, initial: real, a: Account, o: Order, f: Fill)
    requires Balanced(initial, a) && Applicable(a, o, f, 1) && f.fee == f.notional * rate
    requires a.cash + CashDelta(o.side, f) < 0.0
    ensures !AppliesAtRate(rate, initial, a, o, f, 1)
  {
    FillIsAppliedIffSolvent(initial, a, o, f, 1);
  }

  lemma OverdrawnIsBalanced()
    ensures Balanced(1.0, OverdrawnAccount())
  {
  }

  lemma UnitSaleIsApplicable(rate: real)
    requires rate > 1.0
    ensures Applicable(OverdrawnAccount(), SellOrder(), UnitSale(rate), 1)
  {
  }

  lemma OverdrawnSale(rate: real) returns (a: Account, o: Order, f: Fill)
    requires rate > 1.0
    ensures Balanced(1.0, a) && Applicable(a, o, f, 1) && f.fee == f.notional * rate
    ensures a.cash + CashDelta(o.side, f) < 0.0
  {
    hide Balanced, Applicable;
    a, o, f := OverdrawnAccount(), SellOrder(), UnitSale(rate);
    OverdrawnIsBalanced();
    UnitSaleIsApplicable(rate);
  }

  lemma SaleWithinProceeds(rate: real, initial: real, a: Account, o: Order, f: Fill, sequence: int)
    requires rate <= 1.0
    ensures AppliesAtRate(rate, initial, a, o, f, sequence)
  {
    if Balanced(initial, a) && Applicable(a, o, f, sequence) && f.fee == f.notional * rate {
      FeeWithinProceeds(f.notional, rate);
      FillIsAppliedIffSolvent(initial, a, o, f, sequence);
    }
  }

  /** No configuration check bounds the fee rates, and the accounting is total iff they are at most 100%. */
  lemma SalesNeverOverdrawIffFeeAtMostOne(rate: real)
    requires rate >= 0.0
    ensures (forall initial, a, o, f, sequence :: AppliesAtRate(rate, initial, a, o, f, sequence)) <==> rate <= 1.0
  {
    if rate <= 1.0 {
      forall initial, a, o, f, sequence ensures AppliesAtRate(rate, initial, a, o, f, sequence) {
        SaleWithinProceeds(rate, initial, a, o, f, sequence);
      }
    } else {
      var a, o, f := OverdrawnSale(rate);
      OverdrawnIsRefused(rate, 1.0, a, o, f);
    }
  }

  lemma MarkKeepsBalance(initial: real, a: Account, close: real)
    requires Balanced(initial, a)
    ensures MarkToMarket(a, close).Ok? <==> close > 0.0
    ensures MarkToMarket(a, close).Ok? ==>
              var m := MarkToMarket(a, close).value;
              && Balanced(initial, m)
              && m == a.(equity := m.equity, peak := m.peak, drawdown := m.drawdown)
              && m.equity == a.cash + a.position * close
              && MarkedAt(a, m, close)
  {
    if close > 0.0 { MarkIs(initial, a, close); }
  }

  lemma MarkIs(initial: real, a: Account, close: real)
    requires Balanced(initial, a) && close > 0.0
    ensures var equity := a.cash + a.position * close;
            var m := a.(equity := equity, peak := Max(a.peak, equity),
                drawdown := Drawdown(equity, Max(a.peak, equity)));
            MarkToMarket(a, close) == Ok(m) && Balanced(initial, m) && MarkedAt(a, m, close)
  {
    Simulator.MulNonNegative(a.position, close);
    var equity := a.cash + a.position * close;
    var peak := Max(a.peak, equity);
    DrawdownInRange(equity, peak);
    DrawdownIsLoss(equity, peak);
    hide Drawdown;
    var m := a.(equity := equity, peak := peak, drawdown := Drawdown(equity, peak));
    assert m.Valid() && m.Normalised() == m;
  }

  // ---------------------------------------------------------------- reconciliation

  datatype Totals = Totals(cash: real, position: real, fees: real)

  function Add(t: Totals, e: LedgerEntry): Totals {
    Totals(t.cash + e.cashDelta, t.position + e.positionDelta, t.fees + e.feeDelta)
  }

  /** Balances after the first entries of a ledger. */
  function Balance(initial: real, ledger: seq<LedgerEntry>): Totals {
    if ledger == [] then Totals(initial, 0.0, 0.0)
    else Add(Balance(initial, ledger[..|ledger| - 1]), ledger[|ledger| - 1])
  }

  ghost predicate DistinctFills(ledger: seq<LedgerEntry>) {
    forall i, j :: 0 <= i < j < |ledger| && ledger[i].fillId.Some? ==> ledger[i].fillId != ledger[j].fillId
  }

  ghost predicate IncreasingSequences(ledger: seq<LedgerEntry>) {
    forall i, j :: 0 <= i < j < |ledger| ==> ledger[i].sequence < ledger[j].sequence
  }

  /** The k-th entry records the balances the first k deltas add up to. */
  ghost predicate EntryReconciles(initial: real, ledger: seq<LedgerEntry>, k: int)
    requires 0 <= k < |ledger|
  {
    var t := Balance(initial, ledger[..k + 1]);
    t.cash >= 0.0 && t.position >= 0.0 && ledger[k].resultingCash == t.cash && ledger[k].resultingPosition == t.position
  }

  ghost predicate LedgerReconciles(initial: real, ledger: seq<LedgerEntry>) {
    && DistinctFills(ledger)
    && IncreasingSequences(ledger)
    && forall k :: 0 <= k < |ledger| ==> EntryReconciles(initial, ledger, k)
  }

  /** A ledger and a terminal account tell the same story. */
  ghost predicate Reconciles(initial: real, a: Account, ledger: seq<LedgerEntry>) {
    var t := Balance(initial, ledger);
    && initial > 0.0
    && LedgerReconciles(initial, ledger)
    && a.cash == t.cash && a.position == t.position && a.fees == t.fees
    && (a.position == 0.0 ==> a.costBasis == 0.0 && a.cash == initial + a.realizedPnl)
  }

  predicate HasDuplicateFill(ledger: seq<LedgerEntry>) {
    exists i, j | 0 <= i < j < |ledger| :: ledger[i].fillId.Some? && ledger[i].fillId == ledger[j].fillId
  }

  predicate OutOfSequence(ledger: seq<LedgerEntry>) {
    exists i, j | 0 <= i < j < |ledger| :: ledger[i].sequence >= ledger[j].sequence
  }

  /** `verify_reconciliation`: accepts exactly the ledgers that reconcile. */
  method VerifyReconciliation(initial: real, a: Account, ledger: seq<LedgerEntry>)
    returns (error: Option<AccountingError>)
    ensures error.None? <==> Reconciles(initial, a, ledger)
  {
    if initial <= 0.0 { return Some(BadInitialCash); }
    if HasDuplicateFill(ledger) { return Some(DuplicateFill); }
    if OutOfSequence(ledger) { return Some(UnorderedSequence); }
    var running := Totals(initial, 0.0, 0.0);
    for i := 0 to |ledger|
      invariant running == Balance(initial, ledger[..i])
      invariant forall k :: 0 <= k < i ==> EntryReconciles(initial, ledger, k)
    {
      running := Add(running, ledger[i]);
      assert ledger[..i + 1][..i] == ledger[..i];
      assert running == Balance(initial, ledger[..i + 1]);
      if running.cash < 0.0 || running.position < 0.0 {
        assert !EntryReconciles(initial, ledger, i);
        return Some(LedgerNegative);
      }
      if ledger[i].resultingCash != running.cash {
        assert !EntryReconciles(initial, ledger, i);
        return Some(LedgerCash);
      }
      if ledger[i].resultingPosition != running.position {
        assert !EntryReconciles(initial, ledger, i);
        return Some(LedgerPosition);
      }
    }
    assert ledger[..|ledger|] == ledger;
    if running.cash != a.cash { return Some(TerminalCash); }
    if running.position != a.position { return Some(TerminalPosition); }
    if running.fees != a.fees { return Some(TerminalFees); }
    if a.position == 0.0 {
      if a.costBasis != 0.0 { return Some(FlatCostBasis); }
      if a.cash != initial + a.realizedPnl { return Some(FlatProfit); }
    }
    return None;
  }
}
