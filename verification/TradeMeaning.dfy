/** What a completed trade is: the stretch of fills from one flat position to the next, and nothing else. */
module TradeMeaning {
  import opened Wrappers
  import opened Domain
  import opened Trades
  import Engine
  import EngineInvariant
  import EngineTheorems

  function SideOf(orders: map<OrderId, Order>, f: Fill): Side {
    if f.orderId in orders then orders[f.orderId].side else Buy
  }

  /** What is owned after the first `n` fills. */
  function Owned(orders: map<OrderId, Order>, fills: seq<Fill>, n: nat): real
    requires n <= |fills|
  {
    if n == 0 then 0.0
    else
      var f := fills[n - 1];
      Owned(orders, fills, n - 1) + if SideOf(orders, f).Buy? then f.quantity else -f.quantity
  }

  /** The identities of one side's fills from `a` up to `b`, in order. */
  function IdsOf(orders: map<OrderId, Order>, fills: seq<Fill>, side: Side, a: nat, b: nat): seq<FillId>
    requires b <= |fills|
  {
    if b <= a then []
    else
      var f := fills[b - 1];
      IdsOf(orders, fills, side, a, b - 1) + if SideOf(orders, f) == side then [f.fillId] else []
  }

  function NotionalOf(orders: map<OrderId, Order>, fills: seq<Fill>, side: Side, a: nat, b: nat): real
    requires b <= |fills|
  {
    if b <= a then 0.0
    else
      var f := fills[b - 1];
      NotionalOf(orders, fills, side, a, b - 1) + if SideOf(orders, f) == side then f.notional else 0.0
  }

  function FeesOf(orders: map<OrderId, Order>, fills: seq<Fill>, side: Side, a: nat, b: nat): real
    requires b <= |fills|
  {
    if b <= a then 0.0
    else
      var f := fills[b - 1];
      FeesOf(orders, fills, side, a, b - 1) + if SideOf(orders, f) == side then f.fee else 0.0
  }

  /** From flat, through a positive position, to the end `b`. */
  ghost predicate Episode(orders: map<OrderId, Order>, fills: seq<Fill>, a: nat, b: nat)
    requires a < b <= |fills|
  {
    && Owned(orders, fills, a) == 0.0
    && SideOf(orders, fills[a]).Buy?
    && forall i :: a < i < b ==> Owned(orders, fills, i) > 0.0
  }

  /** The trade is exactly the episode of fills from `a` up to `b`. */
  ghost predicate IsTrade(orders: map<OrderId, Order>, fills: seq<Fill>, t: CompletedTrade, a: nat, b: nat)
    requires a < b <= |fills|
  {
    && Episode(orders, fills, a, b)
    && Owned(orders, fills, b) == 0.0 && SideOf(orders, fills[b - 1]).SellToClose?
    && Recounts(orders, fills, t, a, b)
  }

  /** Indices, identities and money of the trade are those of the stretch. */
  ghost predicate Recounts(orders: map<OrderId, Order>, fills: seq<Fill>, t: CompletedTrade, a: nat, b: nat)
    requires a < b <= |fills|
  {
    && t.entryIndex == fills[a].candleIndex
    && t.exitIndex == fills[b - 1].candleIndex
    && t.holdCandles == t.exitIndex - t.entryIndex
    && t.entryIds == IdsOf(orders, fills, Buy, a, b)
    && t.exitIds == IdsOf(orders, fills, SellToClose, a, b)
    && t.entryCost == NotionalOf(orders, fills, Buy, a, b) + FeesOf(orders, fills, Buy, a, b) > 0.0
    && t.exitProceeds == NotionalOf(orders, fills, SellToClose, a, b) - FeesOf(orders, fills, SellToClose, a, b)
    && (1.0 + t.grossReturn) * NotionalOf(orders, fills, Buy, a, b) == NotionalOf(orders, fills, SellToClose, a, b)
    && t.realizedPnl == t.exitProceeds - t.entryCost
    && t.netReturn * t.entryCost == t.realizedPnl
    && (t.winning <==> t.realizedPnl > 0.0)
  }

  /** What the accumulators hold of the trade that is still open, if one is. */
  ghost predicate IsOpen(orders: map<OrderId, Order>, fills: seq<Fill>, d: Derivation, a: nat, n: nat)
    requires a <= n <= |fills|
  {
    && d.position == Owned(orders, fills, n)
    && if a == n then d == Flat(d.trades)
       else
         && Episode(orders, fills, a, n) && d.position > 0.0
         && d.entryIndex == Some(fills[a].candleIndex)
         && d.entryIds == IdsOf(orders, fills, Buy, a, n)
         && d.exitIds == IdsOf(orders, fills, SellToClose, a, n)
         && d.entryNotional == NotionalOf(orders, fills, Buy, a, n) > 0.0
         && d.exitNotional == NotionalOf(orders, fills, SellToClose, a, n)
         && d.entryCost == d.entryNotional + FeesOf(orders, fills, Buy, a, n) > 0.0
         && d.exitProceeds == d.exitNotional - FeesOf(orders, fills, SellToClose, a, n)
  }

  /** The trades cut the fills, without gap or overlap, at the points where the position is flat. */
  ghost predicate Tiles(orders: map<OrderId, Order>, fills: seq<Fill>, d: Derivation, cuts: seq<nat>, n: nat)
    requires n <= |fills|
  {
    && |cuts| == |d.trades| + 1 && cuts[0] == 0 && cuts[|d.trades|] <= n
    && (forall k :: 0 <= k < |d.trades| ==> TileAt(orders, fills, d, cuts, k))
    && IsOpen(orders, fills, d, cuts[|d.trades|], n)
  }

  ghost predicate TileAt(orders: map<OrderId, Order>, fills: seq<Fill>, d: Derivation, cuts: seq<nat>, k: nat)
    requires k < |d.trades| && k + 1 < |cuts|
  {
    && cuts[k] < cuts[k + 1] <= |fills|
    && IsTrade(orders, fills, d.trades[k], cuts[k], cuts[k + 1])
    && d.trades[k].sequence == k + 1
  }

  ghost predicate Positive(f: Fill) {
    f.quantity > 0.0 && f.notional > 0.0 && f.fee >= 0.0
  }

  lemma BuyOpens(orders: map<OrderId, Order>, fills: seq<Fill>, d: Derivation, a: nat, n: nat)
    requires a <= n < |fills| && IsOpen(orders, fills, d, a, n) && Owned(orders, fills, a) == 0.0
    requires Positive(fills[n]) && SideOf(orders, fills[n]).Buy?
    ensures IsOpen(orders, fills, Bought(d, fills[n]), a, n + 1)
  {
  }

  lemma SaleContinues(orders: map<OrderId, Order>, fills: seq<Fill>, d: Derivation, a: nat, n: nat)
    requires a < n < |fills| && IsOpen(orders, fills, d, a, n)
    requires Positive(fills[n]) && SideOf(orders, fills[n]).SellToClose? && fills[n].quantity < d.position
    ensures IsOpen(orders, fills, Sold(d, fills[n]), a, n + 1)
  {
  }

  lemma RatioTimes(x: real, y: real)
    requires y > 0.0
    ensures (1.0 + (x / y - 1.0)) * y == x && (x / y) * y == x
  {
  }

  lemma SaleEndsEpisode(orders: map<OrderId, Order>, fills: seq<Fill>, a: nat, n: nat)
    requires a < n < |fills| && Episode(orders, fills, a, n) && Owned(orders, fills, n) > 0.0
    requires SideOf(orders, fills[n]).SellToClose? && fills[n].quantity == Owned(orders, fills, n)
    ensures Episode(orders, fills, a, n + 1) && Owned(orders, fills, n + 1) == 0.0
  {
  }

  lemma SaleCompletes(orders: map<OrderId, Order>, fills: seq<Fill>, d: Derivation, a: nat, n: nat)
    requires a < n < |fills| && IsOpen(orders, fills, d, a, n)
    requires Positive(fills[n]) && SideOf(orders, fills[n]).SellToClose? && fills[n].quantity == d.position
    ensures IsTrade(orders, fills, Completed(Sold(d, fills[n]), fills[n].candleIndex), a, n + 1)
  {
    SaleEndsEpisode(orders, fills, a, n);
    hide Episode, Owned;
    var after := Sold(d, fills[n]);
    RatioTimes(after.exitNotional, after.entryNotional);
    RatioTimes(after.exitProceeds - after.entryCost, after.entryCost);
  }

  /** One more fill of an open or new trade leaves the completed ones as they are. */
  lemma StepExtendsOpen(
    orders: map<OrderId, Order>, fills: seq<Fill>, d: Derivation, d': Derivation, cuts: seq<nat>, n: nat)
    requires n < |fills| && Tiles(orders, fills, d, cuts, n) && d'.trades == d.trades
    requires IsOpen(orders, fills, d', cuts[|d.trades|], n + 1)
    ensures Tiles(orders, fills, d', cuts, n + 1)
  {
    hide IsTrade, IsOpen;
    forall k | 0 <= k < |d'.trades| ensures TileAt(orders, fills, d', cuts, k) {
      assert TileAt(orders, fills, d, cuts, k);
    }
  }

  /** A fill that completes a trade adds one tile and starts flat behind it. */
  lemma StepAddsTile(
    orders: map<OrderId, Order>, fills: seq<Fill>, d: Derivation, t: CompletedTrade, cuts: seq<nat>, n: nat)
    requires n < |fills| && Tiles(orders, fills, d, cuts, n) && cuts[|d.trades|] < n + 1
    requires IsTrade(orders, fills, t, cuts[|d.trades|], n + 1) && t.sequence == |d.trades| + 1
    ensures Tiles(orders, fills, Flat(d.trades + [t]), cuts + [n + 1], n + 1)
  {
    var d', longer := Flat(d.trades + [t]), cuts + [n + 1];
    assert Owned(orders, fills, n + 1) == 0.0;
    hide IsTrade, Owned;
    forall k | 0 <= k < |d'.trades| ensures TileAt(orders, fills, d', longer, k) {
      if k < |d.trades| { assert TileAt(orders, fills, d, cuts, k); }
    }
  }

  lemma LastCutIsFlat(orders: map<OrderId, Order>, fills: seq<Fill>, d: Derivation, cuts: seq<nat>, n: nat)
    requires n <= |fills| && Tiles(orders, fills, d, cuts, n)
    ensures Owned(orders, fills, cuts[|d.trades|]) == 0.0
  {
    if |d.trades| > 0 {
      assert TileAt(orders, fills, d, cuts, |d.trades| - 1);
    }
  }

  lemma StepTiles(orders: map<OrderId, Order>, fills: seq<Fill>, d: Derivation, cuts: seq<nat>, n: nat)
    returns (cuts': seq<nat>)
    requires n < |fills| && Tiles(orders, fills, d, cuts, n) && Positive(fills[n]) && fills[n].orderId in orders
    requires Step(d, orders[fills[n].orderId].side, fills[n]).Ok?
    ensures Tiles(orders, fills, Step(d, orders[fills[n].orderId].side, fills[n]).value, cuts', n + 1)
  {
    var f, a := fills[n], cuts[|d.trades|];
    var d' := Step(d, orders[f.orderId].side, f).value;
    LastCutIsFlat(orders, fills, d, cuts, n);
    cuts' := cuts;
    if SideOf(orders, f).Buy? {
      BuyOpens(orders, fills, d, a, n);
      StepExtendsOpen(orders, fills, d, d', cuts, n);
    } else {
      OwnedMeansOpen(orders, fills, d, a, n, f);
      if f.quantity < d.position {
        SaleContinues(orders, fills, d, a, n);
        StepExtendsOpen(orders, fills, d, d', cuts, n);
      } else {
        SaleCompletes(orders, fills, d, a, n);
        cuts' := cuts + [n + 1];
        StepAddsTile(orders, fills, d, Completed(Sold(d, f), f.candleIndex), cuts, n);
      }
    }
  }

  lemma OwnedMeansOpen(orders: map<OrderId, Order>, fills: seq<Fill>, d: Derivation, a: nat, n: nat, f: Fill)
    requires a <= n <= |fills| && IsOpen(orders, fills, d, a, n) && 0.0 < f.quantity <= d.position
    ensures a < n
  {
  }

  /** The completed trades of any list of fills tile it, each being exactly one flat-to-flat episode. */
  lemma {:induction false} TradesTile(orders: map<OrderId, Order>, fills: seq<Fill>, n: nat) returns (cuts: seq<nat>)
    requires n <= |fills| && Derive(orders, fills[..n]).Ok?
    requires forall i :: 0 <= i < |fills| ==> Positive(fills[i])
    ensures Tiles(orders, fills, Derive(orders, fills[..n]).value, cuts, n)
  {
    if n == 0 {
      cuts := [0];
    } else {
      assert fills[..n][..n - 1] == fills[..n - 1];
      cuts := TradesTile(orders, fills, n - 1);
      hide Tiles, Step;
      cuts := StepTiles(orders, fills, Derive(orders, fills[..n - 1]).value, cuts, n - 1);
    }
  }

  lemma {:induction false} FirstBuyIsFirst(orders: map<OrderId, Order>, fills: seq<Fill>, a: nat, b: nat)
    requires a < b <= |fills| && SideOf(orders, fills[a]).Buy?
    ensures IdsOf(orders, fills, Buy, a, b) != [] && IdsOf(orders, fills, Buy, a, b)[0] == fills[a].fillId
  {
    if b > a + 1 {
      FirstBuyIsFirst(orders, fills, a, b - 1);
    } else {
      assert IdsOf(orders, fills, Buy, a, a) == [];
    }
  }

  /** The position is flat at the cuts, and nowhere else up to the last fill. */
  lemma FlatExactlyAtCuts(orders: map<OrderId, Order>, fills: seq<Fill>, d: Derivation, cuts: seq<nat>, n: nat, i: nat)
    requires n <= |fills| && Tiles(orders, fills, d, cuts, n) && i <= n
    ensures Owned(orders, fills, i) == 0.0 <==> i in cuts
  {
    hide Recounts, Owned;
    var m := |d.trades|;
    LastCutIsFlat(orders, fills, d, cuts, n);
    if i > cuts[m] {
      assert Owned(orders, fills, i) != 0.0;
      CutsIncrease(orders, fills, d, cuts, n);
    } else {
      CutsIncrease(orders, fills, d, cuts, n);
      var k := FindTile(cuts, i);
      if cuts[k] == i {
        if k < m {
          assert TileAt(orders, fills, d, cuts, k);
        }
      } else {
        assert TileAt(orders, fills, d, cuts, k);
      }
    }
  }

  lemma {:induction false} CutsIncrease(
    orders: map<OrderId, Order>, fills: seq<Fill>, d: Derivation, cuts: seq<nat>, n: nat)
    requires n <= |fills| && Tiles(orders, fills, d, cuts, n)
    ensures forall j, k :: 0 <= j < k < |cuts| ==> cuts[j] < cuts[k]
  {
    hide IsTrade, IsOpen;
    forall k | 0 <= k < |d.trades| ensures cuts[k] < cuts[k + 1] { assert TileAt(orders, fills, d, cuts, k); }
    NeighboursIncrease(cuts);
  }

  lemma NeighboursIncrease(cuts: seq<nat>)
    requires forall k {:trigger cuts[k]} :: 0 <= k < |cuts| - 1 ==> cuts[k] < cuts[k + 1]
    ensures forall j, k :: 0 <= j < k < |cuts| ==> cuts[j] < cuts[k]
  {
    forall j, k | 0 <= j < k < |cuts| ensures cuts[j] < cuts[k] { Climbs(cuts, j, k); }
  }

  lemma {:induction false} Climbs(cuts: seq<nat>, j: nat, k: nat)
    requires forall k {:trigger cuts[k]} :: 0 <= k < |cuts| - 1 ==> cuts[k] < cuts[k + 1]
    requires j < k < |cuts|
    ensures cuts[j] < cuts[k]
  {
    assert cuts[k - 1] < cuts[k - 1 + 1];
    if j < k - 1 { Climbs(cuts, j, k - 1); }
  }

  lemma FindTile(cuts: seq<nat>, i: nat) returns (k: nat)
    requires cuts != [] && cuts[0] <= i <= cuts[|cuts| - 1]
    ensures k < |cuts| && (cuts[k] == i || (k + 1 < |cuts| && cuts[k] < i < cuts[k + 1]))
  {
    k := 0;
    while cuts[k] != i && !(k + 1 < |cuts| && cuts[k] < i < cuts[k + 1])
      invariant k < |cuts| && cuts[k] <= i
      decreases |cuts| - k
    {
      k := k + 1;
    }
  }

  // ---------------------------------------------------------------- the trades of a fill list and of a run

  /**
   The trades of a list of fills are its flat-to-flat episodes: the cuts are exactly the points without a position,
   and the k-th trade enters with the first fill after its cut, exits with the last before the next, and carries
   the identities, costs and proceeds of the fills in between.
   */
  lemma TradesAreEpisodes(orders: map<OrderId, Order>, fills: seq<Fill>) returns (cuts: seq<nat>)
    requires Derive(orders, fills).Ok? && forall i :: 0 <= i < |fills| ==> Positive(fills[i])
    ensures var trades := Derive(orders, fills).value.trades;
            && |cuts| == |trades| + 1
            && (forall i: nat :: i <= |fills| ==> (Owned(orders, fills, i) == 0.0 <==> i in cuts))
            && forall k :: 0 <= k < |trades| ==> TradeIs(orders, fills, trades[k], k, cuts)
  {
    hide Tiles, Owned, IsTrade, TileAt;
    assert fills[..|fills|] == fills;
    cuts := TradesTile(orders, fills, |fills|);
    var d := Derive(orders, fills).value;
    CutsAreCounted(orders, fills, d, cuts);
    forall i: nat | i <= |fills| ensures Owned(orders, fills, i) == 0.0 <==> i in cuts {
      FlatExactlyAtCuts(orders, fills, d, cuts, |fills|, i);
    }
    forall k | 0 <= k < |d.trades| ensures TradeIs(orders, fills, d.trades[k], k, cuts) {
      TileIsTrade(orders, fills, d, cuts, k);
    }
  }

  ghost predicate TradeIs(orders: map<OrderId, Order>, fills: seq<Fill>, t: CompletedTrade, k: nat, cuts: seq<nat>)
    requires k + 1 < |cuts|
  {
    && cuts[k] < cuts[k + 1] <= |fills|
    && t.sequence == k + 1
    && IsTrade(orders, fills, t, cuts[k], cuts[k + 1])
    && t.entryIds != [] && t.entryIds[0] == fills[cuts[k]].fillId
    && t.exitIds != [] && t.exitIds[|t.exitIds| - 1] == fills[cuts[k + 1] - 1].fillId
  }

  lemma CutsAreCounted(orders: map<OrderId, Order>, fills: seq<Fill>, d: Derivation, cuts: seq<nat>)
    requires Tiles(orders, fills, d, cuts, |fills|)
    ensures |cuts| == |d.trades| + 1
  {
  }

  lemma TileIsTrade(orders: map<OrderId, Order>, fills: seq<Fill>, d: Derivation, cuts: seq<nat>, k: nat)
    requires Tiles(orders, fills, d, cuts, |fills|) && k < |d.trades| && |cuts| == |d.trades| + 1
    ensures TradeIs(orders, fills, d.trades[k], k, cuts)
  {
    hide IsOpen, Owned;
    assert TileAt(orders, fills, d, cuts, k);
    FirstBuyIsFirst(orders, fills, cuts[k], cuts[k + 1]);
  }

  /** In every run the completed trades are the flat-to-flat episodes of its fills, and what is owned is the rest. */
  lemma RunTradesAreEpisodes(env: Engine.Env, strategy: Engine.Strategy, k: nat, s: Engine.State)
    returns (cuts: seq<nat>)
    requires EngineTheorems.Reached(env, strategy, k, s)
    ensures Derive(s.orders, s.fills).Ok?
    ensures var trades := Derive(s.orders, s.fills).value.trades;
            && |cuts| == |trades| + 1
            && (forall i: nat :: i <= |s.fills| ==> (Owned(s.orders, s.fills, i) == 0.0 <==> i in cuts))
            && forall j :: 0 <= j < |trades| ==> TradeIs(s.orders, s.fills, trades[j], j, cuts)
    ensures Owned(s.orders, s.fills, |s.fills|) == s.account.position
  {
    hide Engine.Run, Derive, Owned, TradeIs, EngineInvariant.Book, EngineInvariant.Clock,
         EngineInvariant.Ledgered;
    EngineTheorems.ReachedKeeps(env, strategy, k, s);
    EngineTheorems.TwoAccountingsAgree(env, strategy, k, s);
    forall i | 0 <= i < |s.fills| ensures Positive(s.fills[i]) {
      assert EngineInvariant.FillKnown(env, s, s.fills[i], k - 1);
    }
    cuts := TradesAreEpisodes(s.orders, s.fills);
    OwnedIsPosition(s.orders, s.fills);
  }

  lemma OwnedIsPosition(orders: map<OrderId, Order>, fills: seq<Fill>)
    requires Derive(orders, fills).Ok? && forall i :: 0 <= i < |fills| ==> Positive(fills[i])
    ensures Owned(orders, fills, |fills|) == Derive(orders, fills).value.position
  {
    assert fills[..|fills|] == fills;
    var cuts := TradesTile(orders, fills, |fills|);
  }
}
