/**
 Compounding out-of-sample returns: one-pass drawdown against its definition over all pairs, and the growth of
 concatenated folds against their end-to-start equity ratios.
 */
module QualificationPath {
  import opened Wrappers
  import opened Domain
  import Simulator

  datatype PathError = EmptyPath | ReturnTooLow | MissingBoundary | IncompletePath | EquityNotPositive

  datatype PathMetrics = PathMetrics(netReturn: real, maximumDrawdown: real, returnToDrawdown: Option<real>)

  /** Multiplication by name, so that proofs about long products can treat them as opaque terms. */
  function Times(x: real, y: real): real {
    x * y
  }

  /** Wealth after every return, starting from one. */
  function Growth(path: seq<real>): real {
    if path == [] then 1.0 else Times(Growth(path[..|path| - 1]), 1.0 + path[|path| - 1])
  }

  predicate AboveRuin(path: seq<real>) {
    forall i | 0 <= i < |path| :: path[i] > -1.0
  }

  lemma TimesPositive(x: real, y: real)
    requires x > 0.0 && y > 0.0
    ensures Times(x, y) > 0.0
  {
  }

  lemma {:induction false} GrowthIsPositive(path: seq<real>)
    requires AboveRuin(path)
    ensures Growth(path) > 0.0
  {
    hide Times;
    if path != [] {
      GrowthIsPositive(path[..|path| - 1]);
      TimesPositive(Growth(path[..|path| - 1]), 1.0 + path[|path| - 1]);
    }
  }

  // ---------------------------------------------------------------- drawdown

  /** The fall from one level of wealth to another, as a share of the first. */
  function Fall(from: real, to: real): real
    requires from > 0.0
  {
    (from - to) / from
  }

  lemma SignOfProduct(x: real, n: real)
    requires n > 0.0
    ensures x * n > 0.0 <==> x > 0.0
    ensures x * n == 0.0 <==> x == 0.0
  {
    if x > 0.0 { TimesPositive(x, n); } else if x < 0.0 { TimesPositive(-x, n); }
  }

  lemma FallIs(from: real, to: real)
    requires from > 0.0
    ensures Fall(from, to) == 1.0 - to / from
    ensures to > 0.0 ==> Fall(from, to) < 1.0
    ensures Fall(from, to) > 0.0 <==> from > to
    ensures Fall(from, to) == 0.0 <==> from == to
  {
    var f := Fall(from, to);
    assert from - to == f * from;
    SignOfProduct(f, from);
    var q := to / from;
    assert to == q * from;
    SignOfProduct(q, from);
    assert (f - (1.0 - q)) * from == f * from - from + q * from;
    SignOfProduct(f - (1.0 - q), from);
  }

  /** A higher starting level falls further. */
  lemma FallFromHigher(low: real, high: real, to: real)
    requires 0.0 < low <= high && to > 0.0
    ensures Fall(low, to) <= Fall(high, to)
  {
    FallIs(low, to);
    FallIs(high, to);
    DivideByMore(to, low, high);
    hide Fall;
  }

  lemma DivideByMore(x: real, low: real, high: real)
    requires x > 0.0 && 0.0 < low <= high
    ensures x / high <= x / low
  {
    var a, b := x / high, x / low;
    assert x == a * high && x == b * low;
    SignOfProduct(b, low);
    assert b * high == x + b * (high - low);
    Simulator.MulNonNegative(b, high - low);
    SignOfProduct(a - b, high);
  }

  /** The largest fall between any two moments, the start included: the quadratic definition. */
  ghost predicate IsMaximumDrawdown(path: seq<real>, m: real)
    requires AboveRuin(path)
  {
    && (forall i, j :: 0 <= i <= j <= |path| ==> FallBetween(path, i, j) <= m)
    && (exists i, j :: 0 <= i <= j <= |path| && FallBetween(path, i, j) == m)
  }

  function FallBetween(path: seq<real>, i: nat, j: nat): real
    requires AboveRuin(path) && i <= |path| && j <= |path|
  {
    GrowthIsPositive(path[..i]);
    Fall(Growth(path[..i]), Growth(path[..j]))
  }

  /** The highest wealth so far, and where it was reached. */
  ghost predicate IsPeak(path: seq<real>, peak: real) {
    && (forall i :: 0 <= i <= |path| ==> Growth(path[..i]) <= peak)
    && (exists p :: 0 <= p <= |path| && Growth(path[..p]) == peak)
  }

  lemma StartIsPeak()
    ensures IsPeak([], 1.0) && IsMaximumDrawdown([], 0.0)
  {
    var none: seq<real> := [];
    assert none[..0] == none && Growth(none) == 1.0;
    FallIs(1.0, 1.0);
    assert FallBetween(none, 0, 0) == 0.0;
  }

  lemma GrowthOfPrefix(path: seq<real>, r: real, i: nat)
    requires i <= |path|
    ensures Growth((path + [r])[..i]) == Growth(path[..i])
  {
    assert (path + [r])[..i] == path[..i];
  }

  lemma GrowthUnfolds(path: seq<real>)
    requires path != []
    ensures Growth(path) == Times(Growth(path[..|path| - 1]), 1.0 + path[|path| - 1])
  {
  }

  lemma GrowthOfOneMore(path: seq<real>, r: real)
    ensures Growth(path + [r]) == Times(Growth(path), 1.0 + r)
  {
    GrowthUnfolds(path + [r]);
    hide Times, Growth;
    assert (path + [r])[..|path + [r]| - 1] == path;
  }

  lemma PeakExtends(path: seq<real>, r: real, peak: real)
    requires IsPeak(path, peak)
    ensures IsPeak(path + [r], Max(peak, Growth(path + [r])))
  {
    var longer := path + [r];
    var high := Max(peak, Growth(longer));
    GrowthOfOneMore(path, r);
    forall i | 0 <= i <= |longer| ensures Growth(longer[..i]) <= high {
      if i <= |path| { GrowthOfPrefix(path, r, i); } else { assert longer[..i] == longer; }
    }
    var p :| 0 <= p <= |path| && Growth(path[..p]) == peak;
    GrowthOfPrefix(path, r, p);
    if high == peak { assert Growth(longer[..p]) == high; } else { assert longer[..|longer|] == longer; }
  }

  lemma EarlierFalls(path: seq<real>, r: real, i: nat, j: nat)
    requires AboveRuin(path + [r]) && AboveRuin(path) && i <= |path| && j <= |path|
    ensures FallBetween(path + [r], i, j) == FallBetween(path, i, j)
  {
    GrowthOfPrefix(path, r, i);
    GrowthOfPrefix(path, r, j);
  }

  /** One more return: the falls that end at it are all bounded by the fall from the peak. */
  lemma DrawdownExtends(path: seq<real>, r: real, peak: real, m: real)
    requires AboveRuin(path + [r]) && AboveRuin(path) && peak > 0.0
    requires IsPeak(path + [r], peak) && IsMaximumDrawdown(path, m)
    ensures IsMaximumDrawdown(path + [r], Max(m, Fall(peak, Growth(path + [r]))))
  {
    hide Fall, Growth;
    var longer := path + [r];
    var last := Fall(peak, Growth(longer));
    var worst := Max(m, last);
    GrowthOfOneMore(path, r);
    assert longer[..|longer|] == longer;
    forall i, j | 0 <= i <= j <= |longer| ensures FallBetween(longer, i, j) <= worst {
      if j <= |path| {
        EarlierFalls(path, r, i, j);
      } else {
        GrowthIsPositive(longer[..i]);
        GrowthIsPositive(longer[..j]);
        FallFromHigher(Growth(longer[..i]), peak, Growth(longer));
      }
    }
    if worst == m {
      var i, j :| 0 <= i <= j <= |path| && FallBetween(path, i, j) == m;
      EarlierFalls(path, r, i, j);
      assert FallBetween(longer, i, j) == worst;
    } else {
      var p :| 0 <= p <= |longer| && Growth(longer[..p]) == peak;
      assert FallBetween(longer, p, |longer|) == worst;
    }
  }

  method AggregatePathMetrics(path: seq<real>) returns (r: Result<PathMetrics, PathError>)
    ensures r.Ok? <==> path != [] && AboveRuin(path)
    ensures r.Ok? ==>
              && r.value.netReturn == Growth(path) - 1.0
              && IsMaximumDrawdown(path, r.value.maximumDrawdown)
              && (r.value.returnToDrawdown.None? <==> r.value.maximumDrawdown == 0.0)
              && (r.value.returnToDrawdown.Some? ==>
                    r.value.returnToDrawdown.value == r.value.netReturn / r.value.maximumDrawdown)
  {
    if path == [] { return Err(EmptyPath); }
    if !AboveRuin(path) { return Err(ReturnTooLow); }
    hide Fall, IsPeak, IsMaximumDrawdown, Times;
    var wealth, peak, maximum := 1.0, 1.0, 0.0;
    StartIsPeak();
    for k := 0 to |path|
      invariant wealth == Growth(path[..k]) && peak > 0.0
      invariant AboveRuin(path[..k])
      invariant IsPeak(path[..k], peak) && IsMaximumDrawdown(path[..k], maximum)
    {
      var before, now := path[..k], path[k];
      assert path[..k + 1] == before + [now];
      GrowthOfOneMore(before, now);
      PeakExtends(before, now, peak);
      wealth := Times(wealth, 1.0 + now);
      peak := Max(peak, wealth);
      DrawdownExtends(before, now, peak, maximum);
      maximum := Max(maximum, Fall(peak, wealth));
    }
    assert path[..|path|] == path;
    return Ok(PathMetrics(wealth - 1.0, maximum, if maximum == 0.0 then None else Some((wealth - 1.0) / maximum)));
  }

  /** A maximum drawdown is in [0, 1), it is unique, and it is zero exactly when no single return is negative. */
  lemma DrawdownRange(path: seq<real>, m: real, m': real)
    requires AboveRuin(path) && IsMaximumDrawdown(path, m) && IsMaximumDrawdown(path, m')
    ensures 0.0 <= m < 1.0 && m == m'
    ensures m == 0.0 <==> forall i :: 0 <= i < |path| ==> path[i] >= 0.0
  {
    hide Growth, Times;
    assert path[..0] == [];
    GrowthOfNothing();
    FallIs(1.0, 1.0);
    assert FallBetween(path, 0, 0) == 0.0;
    var i, j :| 0 <= i <= j <= |path| && FallBetween(path, i, j) == m;
    var i', j' :| 0 <= i' <= j' <= |path| && FallBetween(path, i', j') == m';
    GrowthIsPositive(path[..i]);
    GrowthIsPositive(path[..j]);
    FallIs(Growth(path[..i]), Growth(path[..j]));
    if forall k :: 0 <= k < |path| ==> path[k] >= 0.0 {
      NeverFalls(path, i, j);
    } else {
      var k :| 0 <= k < |path| && path[k] < 0.0;
      FallsAt(path, k);
      assert FallBetween(path, k, k + 1) > 0.0;
    }
  }

  lemma GrowthOfNothing()
    ensures Growth([]) == 1.0
  {
  }

  lemma {:induction false} NeverFalls(path: seq<real>, i: nat, j: nat)
    requires AboveRuin(path) && i <= j <= |path|
    requires forall k :: 0 <= k < |path| ==> path[k] >= 0.0
    ensures Growth(path[..i]) <= Growth(path[..j])
  {
    if i < j {
      NeverFalls(path, i, j - 1);
      GrowthIsPositive(path[..j - 1]);
      assert path[..j] == path[..j - 1] + [path[j - 1]];
      GrowthOfOneMore(path[..j - 1], path[j - 1]);
      Scales(Growth(path[..j - 1]), path[j - 1]);
    }
  }

  lemma Scales(w: real, r: real)
    requires w > 0.0
    ensures r >= 0.0 ==> Times(w, 1.0 + r) >= w
    ensures r < 0.0 ==> Times(w, 1.0 + r) < w
  {
    assert Times(w, 1.0 + r) == w + w * r;
    if r >= 0.0 { assert w * r >= 0.0; } else { TimesPositive(w, -r); }
  }

  lemma FallsAt(path: seq<real>, k: nat)
    requires AboveRuin(path) && k < |path| && path[k] < 0.0
    ensures FallBetween(path, k, k + 1) > 0.0
  {
    GrowthIsPositive(path[..k]);
    assert path[..k + 1] == path[..k] + [path[k]];
    GrowthOfOneMore(path[..k], path[k]);
    Scales(Growth(path[..k]), path[k]);
    FallIs(Growth(path[..k]), Growth(path[..k + 1]));
  }

  // ---------------------------------------------------------------- folds

  /** One fold's account path: the equity after each candle, and the out-of-sample range. */
  datatype FoldPath = FoldPath(initialCash: real, equities: seq<real>, start: nat, end: Option<nat>)
  {
    predicate Complete() {
      end.Some? && start < end.value <= |equities|
    }

    /** The equity the fold's first return is measured from. */
    function Opening(): real
      requires Complete()
    {
      if start == 0 then initialCash else equities[start - 1]
    }

    function Observed(): (e: seq<real>)
      requires Complete()
      ensures e != []
    {
      equities[start..end.value]
    }
  }

  /** Every equity a return is measured from is positive; the last one is not measured from. */
  predicate Measurable(opening: real, observed: seq<real>)
    requires observed != []
  {
    opening > 0.0 && forall i | 0 <= i < |observed| - 1 :: observed[i] > 0.0
  }

  predicate ReturnAt(opening: real, observed: seq<real>, path: seq<real>, k: int)
    requires 0 <= k < |observed| && k < |path|
  {
    var previous := if k == 0 then opening else observed[k - 1];
    previous != 0.0 && path[k] == observed[k] / previous - 1.0
  }

  ghost predicate AreReturns(opening: real, observed: seq<real>, path: seq<real>) {
    |path| == |observed| && forall k :: 0 <= k < |observed| ==> ReturnAt(opening, observed, path, k)
  }

  method FoldOosReturns(fold: FoldPath) returns (r: Result<seq<real>, PathError>)
    ensures r.Ok? <==> fold.Complete() && Measurable(fold.Opening(), fold.Observed())
    ensures r.Ok? ==> AreReturns(fold.Opening(), fold.Observed(), r.value)
  {
    if fold.end.None? { return Err(MissingBoundary); }
    if fold.start >= fold.end.value || fold.end.value > |fold.equities| { return Err(IncompletePath); }
    var previous := fold.Opening();
    ghost var observed := fold.Observed();
    var values := [];
    for i := fold.start to fold.end.value
      invariant |values| == i - fold.start
      invariant previous == if i == fold.start then fold.Opening() else fold.equities[i - 1]
      invariant i > fold.start ==> fold.Opening() > 0.0
      invariant forall k :: 0 <= k < |values| - 1 ==> observed[k] > 0.0
      invariant forall k :: 0 <= k < |values| ==> ReturnAt(fold.Opening(), observed, values, k)
    {
      if previous <= 0.0 {
        assert |values| > 0 ==> observed[|values| - 1] <= 0.0;
        return Err(EquityNotPositive);
      }
      var k := |values|;
      assert observed[k] == fold.equities[i] && (k > 0 ==> previous == observed[k - 1]);
      ghost var before := values;
      values := values + [fold.equities[i] / previous - 1.0];
      forall t | 0 <= t < k ensures ReturnAt(fold.Opening(), observed, values, t) {
        assert ReturnAt(fold.Opening(), observed, before, t) && values[t] == before[t];
      }
      previous := fold.equities[i];
    }
    return Ok(values);
  }

  lemma Telescopes(opening: real, previous: real, now: real)
    requires opening > 0.0 && previous > 0.0
    ensures Times(previous / opening, 1.0 + (now / previous - 1.0)) == now / opening
  {
    var q := now / previous;
    assert now == q * previous;
    assert previous / opening * q == (previous * q) / opening;
  }

  /** Compounding a fold's returns telescopes to its closing equity over its opening equity. */
  lemma {:induction false} FoldGrowth(opening: real, observed: seq<real>, path: seq<real>)
    requires observed != [] && Measurable(opening, observed) && AreReturns(opening, observed, path)
    ensures Growth(path) == observed[|observed| - 1] / opening
    decreases |observed|
  {
    var n := |observed| - 1;
    assert ReturnAt(opening, observed, path, n);
    if n == 0 {
      assert path[..0] == [];
      assert Growth(path) == Times(1.0, 1.0 + path[0]);
    } else {
      var o, rs := observed[..n], path[..n];
      forall k | 0 <= k < n ensures ReturnAt(opening, o, rs, k) { assert ReturnAt(opening, observed, path, k); }
      FoldGrowth(opening, o, rs);
      hide Times;
      Telescopes(opening, observed[n - 1], observed[n]);
    }
  }

  lemma Reassociate(x: real, y: real, z: real)
    ensures Times(Times(x, y), z) == Times(x, Times(y, z)) && Times(x, 1.0) == x && Times(1.0, x) == x
  {
  }

  /** Wealth over a concatenation is the product of the parts. */
  lemma {:induction false} GrowthOfConcatenation(a: seq<real>, b: seq<real>)
    ensures Growth(a + b) == Times(Growth(a), Growth(b))
  {
    hide Times;
    if b == [] {
      assert a + b == a;
      Reassociate(Growth(a), 1.0, 1.0);
    } else {
      var front, last := b[..|b| - 1], b[|b| - 1];
      GrowthOfConcatenation(a, front);
      assert a + b == (a + front) + [last];
      GrowthOfOneMore(a + front, last);
      Reassociate(Growth(a), Growth(front), 1.0 + last);
    }
  }

  /** The product over folds of closing equity over opening equity. */
  function FoldRatios(folds: seq<FoldPath>): real
    requires forall f :: f in folds ==> f.Complete() && f.Opening() != 0.0
  {
    if folds == [] then 1.0
    else
      var f := folds[|folds| - 1];
      assert f in folds;
      Times(FoldRatios(folds[..|folds| - 1]), f.Observed()[|f.Observed()| - 1] / f.Opening())
  }

  predicate AllMeasurable(folds: seq<FoldPath>) {
    forall f | f in folds :: f.Complete() && Measurable(f.Opening(), f.Observed())
  }

  /** Every fold ends with equity left. */
  predicate AllSurvive(folds: seq<FoldPath>)
    requires AllMeasurable(folds)
  {
    forall f | f in folds :: f.Observed()[|f.Observed()| - 1] > 0.0
  }

  /** What the concatenated returns of some folds amount to. */
  ghost predicate Concatenates(folds: seq<FoldPath>, path: seq<real>) {
    && AllMeasurable(folds)
    && Growth(path) == FoldRatios(folds)
    && (AboveRuin(path) <==> AllSurvive(folds))
    && (path == [] <==> folds == [])
  }

  lemma NothingConcatenates()
    ensures Concatenates([], [])
  {
  }

  lemma OneMoreFold(folds: seq<FoldPath>, path: seq<real>, fold: FoldPath, part: seq<real>)
    requires Concatenates(folds, path) && fold.Complete() && Measurable(fold.Opening(), fold.Observed())
    requires AreReturns(fold.Opening(), fold.Observed(), part)
    ensures Concatenates(folds + [fold], path + part)
  {
    hide Growth, Times, AreReturns, AboveRuin, Measurable;
    var longer := folds + [fold];
    assert longer[..|folds|] == folds;
    GrowthOfConcatenation(path, part);
    FoldGrowth(fold.Opening(), fold.Observed(), part);
    RuinIsALastEquity(fold.Opening(), fold.Observed(), part);
    RuinOfBoth(path, part);
    assert AllMeasurable(longer);
    assert AllSurvive(longer) <==> AllSurvive(folds) && fold.Observed()[|fold.Observed()| - 1] > 0.0 by {
      assert forall f :: f in longer <==> f in folds || f == fold;
    }
  }

  /** The returns of every fold, one fold after another. */
  method CasePeriodReturns(folds: seq<FoldPath>) returns (r: Result<seq<real>, PathError>)
    ensures r.Ok? <==> AllMeasurable(folds)
    ensures r.Ok? ==> Growth(r.value) == FoldRatios(folds)
    ensures r.Ok? ==> (AboveRuin(r.value) <==> AllSurvive(folds))
    ensures r.Ok? ==> (r.value == [] <==> folds == [])
  {
    hide Growth, Times, AreReturns, AboveRuin, AllSurvive, FoldRatios, Measurable;
    var values := [];
    NothingConcatenates();
    for n := 0 to |folds|
      invariant Concatenates(folds[..n], values)
    {
      var fold := folds[n];
      assert fold in folds;
      var part := FoldOosReturns(fold);
      if part.Err? { return Err(part.error); }
      assert folds[..n + 1] == folds[..n] + [fold];
      OneMoreFold(folds[..n], values, fold, part.value);
      values := values + part.value;
    }
    assert folds[..|folds|] == folds;
    return Ok(values);
  }

  lemma RuinOfBoth(a: seq<real>, b: seq<real>)
    ensures AboveRuin(a + b) <==> AboveRuin(a) && AboveRuin(b)
  {
    if AboveRuin(a + b) {
      forall i | 0 <= i < |a| ensures a[i] > -1.0 { assert (a + b)[i] == a[i]; }
      forall i | 0 <= i < |b| ensures b[i] > -1.0 { assert (a + b)[|a| + i] == b[i]; }
    }
  }

  lemma ReturnAboveRuin(previous: real, now: real)
    requires previous > 0.0
    ensures now / previous - 1.0 > -1.0 <==> now > 0.0
  {
    var q := now / previous;
    assert now == q * previous;
    if q > 0.0 { assert q * previous > 0.0; } else { assert q * previous <= 0.0; }
  }

  /** Only the closing equity of a measurable fold can make one of its returns total. */
  lemma RuinIsALastEquity(opening: real, observed: seq<real>, path: seq<real>)
    requires observed != [] && Measurable(opening, observed) && AreReturns(opening, observed, path)
    ensures AboveRuin(path) <==> observed[|observed| - 1] > 0.0
    ensures |path| > 0
  {
    var n := |observed| - 1;
    forall k | 0 <= k <= n ensures path[k] > -1.0 <==> observed[k] > 0.0 {
      assert ReturnAt(opening, observed, path, k);
      ReturnAboveRuin(if k == 0 then opening else observed[k - 1], observed[k]);
    }
  }

  /**
  Compounding the concatenated folds gives the product over folds of end equity over start equity, less one,
  and the aggregate is refused exactly when there is no fold, a path cannot be measured, or a fold ends without equity.
  */
  method AggregateCase(folds: seq<FoldPath>) returns (r: Result<PathMetrics, PathError>)
    ensures r.Ok? <==> folds != [] && AllMeasurable(folds) && AllSurvive(folds)
    ensures r.Ok? ==> r.value.netReturn == FoldRatios(folds) - 1.0 && 0.0 <= r.value.maximumDrawdown < 1.0
  {
    hide Growth, Times, IsMaximumDrawdown, FoldRatios;
    var path := CasePeriodReturns(folds);
    if path.Err? { return Err(path.error); }
    r := AggregatePathMetrics(path.value);
    if r.Ok? { DrawdownRange(path.value, r.value.maximumDrawdown, r.value.maximumDrawdown); }
  }
}
