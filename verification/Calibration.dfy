/**
 The calibrated numbers: least-squares return maps, the Brier score and the ten-bin calibration error.
 `Decimal` arithmetic is exact here, so nothing is claimed about the last rounded digit.
 */
module Calibration {
  import opened Wrappers
  import opened Domain
  import Simulator

  datatype CalibrationError = LengthMismatch | TooFew | OutOfRange | NoVariance

  predicate Probabilities(values: seq<real>) {
    forall i | 0 <= i < |values| :: 0.0 <= values[i] <= 1.0
  }

  // ---------------------------------------------------------------- sums

  /** Multiplication by name, so that proofs about sums can treat products as opaque terms. */
  function Prod(x: real, y: real): real {
    x * y
  }

  function Sum(values: seq<real>): real {
    if values == [] then 0.0 else Sum(values[..|values| - 1]) + values[|values| - 1]
  }

  function Dot(xs: seq<real>, ys: seq<real>): real
    requires |xs| == |ys|
  {
    if xs == [] then 0.0
    else Dot(xs[..|xs| - 1], ys[..|ys| - 1]) + Prod(xs[|xs| - 1], ys[|ys| - 1])
  }

  /** The sum of products of deviations from two centres. */
  function Cross(xs: seq<real>, ys: seq<real>, x0: real, y0: real): real
    requires |xs| == |ys|
  {
    if xs == [] then 0.0
    else Cross(xs[..|xs| - 1], ys[..|ys| - 1], x0, y0) + Prod(xs[|xs| - 1] - x0, ys[|ys| - 1] - y0)
  }

  function Smallest(values: seq<real>): (low: real)
    requires values != []
    ensures low in values && forall i :: 0 <= i < |values| ==> low <= values[i]
  {
    if |values| == 1 then values[0] else Min(Smallest(values[..|values| - 1]), values[|values| - 1])
  }

  function Largest(values: seq<real>): (high: real)
    requires values != []
    ensures high in values && forall i :: 0 <= i < |values| ==> values[i] <= high
  {
    if |values| == 1 then values[0] else Max(Largest(values[..|values| - 1]), values[|values| - 1])
  }

  // ---------------------------------------------------------------- the expected-return map

  datatype ReturnMap = ReturnMap(intercept: real, slope: real, minimum: real, maximum: real, count: nat)

  function Centre(values: seq<real>): real
    requires values != []
  {
    Sum(values) / |values| as real
  }

  function FitExpectedReturnMap(ps: seq<real>, rs: seq<real>): Result<ReturnMap, CalibrationError> {
    if |ps| != |rs| then Err(LengthMismatch)
    else if |ps| < 2 then Err(TooFew)
    else if !Probabilities(ps) then Err(OutOfRange)
    else
      var p0, r0 := Centre(ps), Centre(rs);
      var variance := Cross(ps, ps, p0, p0);
      if variance == 0.0 then Err(NoVariance)
      else
        var slope := Cross(ps, rs, p0, r0) / variance;
        Ok(ReturnMap(r0 - Prod(slope, p0), slope, Smallest(ps), Largest(ps), |ps|))
  }

  function Clamp(m: ReturnMap, p: real): real {
    Min(Max(p, m.minimum), m.maximum)
  }

  function ApplyExpectedReturn(m: ReturnMap, p: real): Result<real, CalibrationError> {
    if 0.0 <= p <= 1.0 then Ok(Line(m.intercept, m.slope, Clamp(m, p))) else Err(OutOfRange)
  }

  function Line(a: real, b: real, p: real): real {
    a + Prod(b, p)
  }

  /** The sum of squared errors of a line. */
  function SquaredError(ps: seq<real>, rs: seq<real>, a: real, b: real): real
    requires |ps| == |rs|
  {
    if ps == [] then 0.0
    else
      var e := rs[|rs| - 1] - Line(a, b, ps[|ps| - 1]);
      SquaredError(ps[..|ps| - 1], rs[..|rs| - 1], a, b) + Prod(e, e)
  }

  /** The sum of the residuals of a line. */
  function Residuals(ps: seq<real>, rs: seq<real>, a: real, b: real): real
    requires |ps| == |rs|
  {
    if ps == [] then 0.0
    else Residuals(ps[..|ps| - 1], rs[..|rs| - 1], a, b) + (rs[|rs| - 1] - Line(a, b, ps[|ps| - 1]))
  }

  /** The sum of the residuals of a line, each weighted by its probability. */
  function WeightedResiduals(ps: seq<real>, rs: seq<real>, a: real, b: real): real
    requires |ps| == |rs|
  {
    if ps == [] then 0.0
    else
      WeightedResiduals(ps[..|ps| - 1], rs[..|rs| - 1], a, b)
      + Prod(rs[|rs| - 1] - Line(a, b, ps[|ps| - 1]), ps[|ps| - 1])
  }

  /** The sum of squares of a line's values. */
  function SquaredLine(ps: seq<real>, a: real, b: real): real {
    if ps == [] then 0.0
    else SquaredLine(ps[..|ps| - 1], a, b) + Prod(Line(a, b, ps[|ps| - 1]), Line(a, b, ps[|ps| - 1]))
  }

  lemma Distribute(k: real, x: real, y: real)
    ensures Prod(k, x + y) == Prod(k, x) + Prod(k, y)
  {
  }

  lemma ProdOne(k: real)
    ensures Prod(k, 1.0) == k && Prod(k, 0.0) == 0.0
  {
  }

  lemma WeightedTerm(p: real, r: real, a: real, b: real)
    ensures Prod(r - Line(a, b, p), p) == Prod(p, r) - Prod(a, p) - Prod(b, Prod(p, p))
  {
    hide Prod;
    ThreeTerms(r, a, Prod(b, p), p);
    Associate(b, p);
  }

  lemma ThreeTerms(r: real, a: real, u: real, p: real)
    ensures Prod(r - (a + u), p) == Prod(p, r) - Prod(a, p) - Prod(u, p)
  {
    assert (r - (a + u)) * p == p * r - a * p - u * p;
  }

  lemma Associate(b: real, p: real)
    ensures Prod(Prod(b, p), p) == Prod(b, Prod(p, p))
  {
  }

  lemma CrossTerm(x: real, y: real, x0: real, y0: real)
    ensures Prod(x - x0, y - y0) == Prod(x, y) - Prod(y0, x) - Prod(x0, y) + Prod(x0, y0)
  {
  }

  lemma ProdPositive(x: real, y: real)
    requires x > 0.0 && y > 0.0
    ensures Prod(x, y) > 0.0
  {
    Positive(x, y);
  }

  lemma NegateBoth(x: real, y: real)
    ensures Prod(-x, -y) == Prod(x, y)
  {
  }

  lemma SquareIsNonNegative(x: real)
    ensures Prod(x, x) >= 0.0
    ensures x != 0.0 ==> Prod(x, x) > 0.0
  {
    ProdOne(x);
    NegateBoth(x, x);
    hide Prod;
    if x > 0.0 { ProdPositive(x, x); } else if x < 0.0 { ProdPositive(-x, -x); }
  }

  lemma {:induction false} ResidualsAre(ps: seq<real>, rs: seq<real>, a: real, b: real)
    requires |ps| == |rs|
    ensures Residuals(ps, rs, a, b) == Sum(rs) - Prod(a, |ps| as real) - Prod(b, Sum(ps))
  {
    hide Prod;
    ProdOne(a);
    ProdOne(b);
    if ps != [] {
      var n := |ps| - 1;
      ResidualsAre(ps[..n], rs[..n], a, b);
      Distribute(a, n as real, 1.0);
      Distribute(b, Sum(ps[..n]), ps[n]);
    }
  }

  lemma {:induction false} WeightedResidualsAre(ps: seq<real>, rs: seq<real>, a: real, b: real)
    requires |ps| == |rs|
    ensures WeightedResiduals(ps, rs, a, b) == Dot(ps, rs) - Prod(a, Sum(ps)) - Prod(b, Dot(ps, ps))
  {
    hide Prod, Line;
    ProdOne(a);
    ProdOne(b);
    if ps != [] {
      var n := |ps| - 1;
      WeightedResidualsAre(ps[..n], rs[..n], a, b);
      Distribute(a, Sum(ps[..n]), ps[n]);
      Distribute(b, Dot(ps[..n], ps[..n]), Prod(ps[n], ps[n]));
      WeightedTerm(ps[n], rs[n], a, b);
    }
  }

  lemma {:induction false} CrossIs(xs: seq<real>, ys: seq<real>, x0: real, y0: real)
    requires |xs| == |ys|
    ensures Cross(xs, ys, x0, y0)
            == Dot(xs, ys) - Prod(y0, Sum(xs)) - Prod(x0, Sum(ys)) + Prod(Prod(x0, y0), |xs| as real)
  {
    hide Prod;
    ProdOne(x0);
    ProdOne(y0);
    ProdOne(Prod(x0, y0));
    if xs != [] {
      var n := |xs| - 1;
      CrossIs(xs[..n], ys[..n], x0, y0);
      Distribute(y0, Sum(xs[..n]), xs[n]);
      Distribute(x0, Sum(ys[..n]), ys[n]);
      Distribute(Prod(x0, y0), n as real, 1.0);
      CrossTerm(xs[n], ys[n], x0, y0);
    }
  }

  lemma CentreTimesCount(values: seq<real>)
    requires values != []
    ensures Prod(Centre(values), |values| as real) == Sum(values)
  {
    hide Sum;
  }

  /** Deviations from the means: the cross moment less the product of the means. */
  lemma CentredCross(xs: seq<real>, ys: seq<real>)
    requires |xs| == |ys| && xs != []
    ensures Cross(xs, ys, Centre(xs), Centre(ys)) == Dot(xs, ys) - Prod(Centre(ys), Sum(xs))
  {
    hide Prod, Cross, Dot, Sum, Centre;
    CrossIs(xs, ys, Centre(xs), Centre(ys));
    CentreTimesCount(ys);
    Reassociate(Centre(xs), Centre(ys), |xs| as real);
  }

  lemma Reassociate(x: real, y: real, n: real)
    ensures Prod(Prod(x, y), n) == Prod(x, Prod(y, n))
  {
  }

  /** The intercept through the means and the slope from the centred moments solve both normal equations. */
  lemma SolveNormalEquations(
    a: real, slope: real, p0: real, r0: real, n: real, sp: real, sr: real, dpr: real, dpp: real)
    requires Prod(p0, n) == sp && Prod(r0, n) == sr && a == r0 - Prod(slope, p0)
    requires Prod(slope, dpp - Prod(p0, sp)) == dpr - Prod(r0, sp)
    ensures sr - Prod(a, n) - Prod(slope, sp) == 0.0
    ensures dpr - Prod(a, sp) - Prod(slope, dpp) == 0.0
  {
    ExpandDifference(r0, slope, p0, n);
    ExpandDifference(r0, slope, p0, sp);
    ExpandSlope(slope, dpp, p0, sp);
    hide Prod;
  }

  lemma ExpandDifference(r0: real, slope: real, p0: real, n: real)
    ensures Prod(r0 - Prod(slope, p0), n) == Prod(r0, n) - Prod(slope, Prod(p0, n))
  {
  }

  lemma ExpandSlope(slope: real, dpp: real, p0: real, sp: real)
    ensures Prod(slope, dpp - Prod(p0, sp)) == Prod(slope, dpp) - Prod(slope, Prod(p0, sp))
  {
  }

  lemma QuotientTimes(x: real, y: real)
    requires y != 0.0
    ensures Prod(x / y, y) == x
  {
  }

  /** What a fit is, with its slope as the solution of an equation. */
  lemma FitIs(ps: seq<real>, rs: seq<real>)
    requires FitExpectedReturnMap(ps, rs).Ok?
    ensures |ps| == |rs| && |ps| >= 2 && Probabilities(ps)
    ensures var m := FitExpectedReturnMap(ps, rs).value;
            && Cross(ps, ps, Centre(ps), Centre(ps)) != 0.0
            && Prod(m.slope, Cross(ps, ps, Centre(ps), Centre(ps))) == Cross(ps, rs, Centre(ps), Centre(rs))
            && m.intercept == Centre(rs) - Prod(m.slope, Centre(ps))
            && m.minimum == Smallest(ps) && m.maximum == Largest(ps)
  {
    hide Prod, Cross, Centre, Smallest, Largest, Probabilities;
    QuotientTimes(Cross(ps, rs, Centre(ps), Centre(rs)), Cross(ps, ps, Centre(ps), Centre(ps)));
  }

  /** The fitted line leaves residuals that sum to zero and are orthogonal to the probabilities. */
  lemma NormalEquations(ps: seq<real>, rs: seq<real>)
    requires FitExpectedReturnMap(ps, rs).Ok?
    ensures |ps| == |rs|
    ensures var m := FitExpectedReturnMap(ps, rs).value;
            Residuals(ps, rs, m.intercept, m.slope) == 0.0 && WeightedResiduals(ps, rs, m.intercept, m.slope) == 0.0
  {
    hide Residuals, WeightedResiduals, Cross, Dot, Sum, Centre, Smallest, Largest, Probabilities, FitExpectedReturnMap,
         Prod;
    FitIs(ps, rs);
    var m := FitExpectedReturnMap(ps, rs).value;
    ResidualsAre(ps, rs, m.intercept, m.slope);
    WeightedResidualsAre(ps, rs, m.intercept, m.slope);
    CentreTimesCount(ps);
    CentreTimesCount(rs);
    CentredCross(ps, rs);
    CentredCross(ps, ps);
    SolveNormalEquations(
      m.intercept, m.slope, Centre(ps), Centre(rs), |ps| as real, Sum(ps), Sum(rs), Dot(ps, rs), Dot(ps, ps));
  }

  lemma SquareOfSum(e: real, a: real, b: real, p: real)
    ensures var l := Line(a, b, p);
            Prod(e + l, e + l) == Prod(e, e) + 2.0 * (Prod(a, e) + Prod(b, Prod(e, p))) + Prod(l, l)
  {
    var l := Line(a, b, p);
    assert Prod(e, l) == Prod(a, e) + Prod(b, Prod(e, p));
    SquareOf(e, l);
    hide Line;
  }

  lemma SquareOf(e: real, l: real)
    ensures Prod(e + l, e + l) == Prod(e, e) + 2.0 * Prod(e, l) + Prod(l, l)
  {
  }

  lemma MovedResidual(r: real, p: real, a: real, b: real, da: real, db: real)
    ensures r - Line(a - da, b - db, p) == (r - Line(a, b, p)) + Line(da, db, p)
  {
  }

  /** Moving the line by (a, b) adds the two residual sums and the square of the move. */
  lemma {:induction false} ErrorOfMovedLine(ps: seq<real>, rs: seq<real>, a: real, b: real, da: real, db: real)
    requires |ps| == |rs|
    ensures SquaredError(ps, rs, a - da, b - db)
            == SquaredError(ps, rs, a, b)
               + 2.0 * (Prod(da, Residuals(ps, rs, a, b)) + Prod(db, WeightedResiduals(ps, rs, a, b)))
               + SquaredLine(ps, da, db)
  {
    hide Prod, Line;
    ProdOne(da);
    ProdOne(db);
    if ps != [] {
      var n := |ps| - 1;
      var e := rs[n] - Line(a, b, ps[n]);
      ErrorOfMovedLine(ps[..n], rs[..n], a, b, da, db);
      MovedResidual(rs[n], ps[n], a, b, da, db);
      SquareOfSum(e, da, db, ps[n]);
      Distribute(da, Residuals(ps[..n], rs[..n], a, b), e);
      Distribute(db, WeightedResiduals(ps[..n], rs[..n], a, b), Prod(e, ps[n]));
    }
  }

  lemma {:induction false} SquaredLineIsNonNegative(ps: seq<real>, a: real, b: real)
    ensures SquaredLine(ps, a, b) >= 0.0
  {
    hide Prod, Line;
    if ps != [] {
      SquaredLineIsNonNegative(ps[..|ps| - 1], a, b);
      SquareIsNonNegative(Line(a, b, ps[|ps| - 1]));
    }
  }

  /** A line whose squares add up to zero vanishes on every probability. */
  lemma {:induction false} VanishingLine(ps: seq<real>, a: real, b: real)
    requires SquaredLine(ps, a, b) == 0.0
    ensures forall i :: 0 <= i < |ps| ==> Line(a, b, ps[i]) == 0.0
  {
    hide Prod, Line;
    if ps != [] {
      var n := |ps| - 1;
      SquaredLineIsNonNegative(ps[..n], a, b);
      SquareIsNonNegative(Line(a, b, ps[n]));
      VanishingLine(ps[..n], a, b);
      forall i | 0 <= i < |ps| ensures Line(a, b, ps[i]) == 0.0 {
        if i < n { assert ps[..n][i] == ps[i]; }
      }
    }
  }

  lemma SameRoot(a: real, b: real, x: real, y: real)
    requires Line(a, b, x) == 0.0 && Line(a, b, y) == 0.0 && b != 0.0
    ensures x == y
  {
    assert b * (x - y) == 0.0;
  }

  lemma ZeroSlope(a: real, x: real)
    ensures Line(a, 0.0, x) == a
  {
  }

  lemma {:induction false} ConstantCross(ps: seq<real>, x: real)
    requires forall i :: 0 <= i < |ps| ==> ps[i] == x
    ensures Cross(ps, ps, x, x) == 0.0 && Sum(ps) == Prod(x, |ps| as real)
  {
    hide Prod;
    ProdOne(x);
    ProdOne(0.0);
    if ps != [] {
      ConstantCross(ps[..|ps| - 1], x);
      Distribute(x, (|ps| - 1) as real, 1.0);
    }
  }

  lemma ConstantCentre(ps: seq<real>, x: real)
    requires ps != [] && forall i :: 0 <= i < |ps| ==> ps[i] == x
    ensures Centre(ps) == x
  {
    ConstantCross(ps, x);
    hide Sum;
  }

  /** Only the zero line vanishes on probabilities that vary. */
  lemma OnlyZeroVanishes(ps: seq<real>, a: real, b: real)
    requires ps != [] && Cross(ps, ps, Centre(ps), Centre(ps)) != 0.0 && SquaredLine(ps, a, b) == 0.0
    ensures a == 0.0 && b == 0.0
  {
    VanishingLine(ps, a, b);
    hide Cross, Centre, SquaredLine, Prod, Line;
    if b != 0.0 {
      forall i | 0 <= i < |ps| ensures ps[i] == ps[0] { SameRoot(a, b, ps[i], ps[0]); }
      ConstantCentre(ps, ps[0]);
      ConstantCross(ps, ps[0]);
    }
    ZeroSlope(a, ps[0]);
  }

  lemma {:induction false} EqualLines(ps: seq<real>)
    ensures SquaredLine(ps, 0.0, 0.0) == 0.0
  {
    if ps != [] { EqualLines(ps[..|ps| - 1]); }
  }

  /** The fitted line is the unique minimiser of the squared error over all lines. */
  lemma FitIsTheLeastSquaresLine(ps: seq<real>, rs: seq<real>, a: real, b: real)
    requires FitExpectedReturnMap(ps, rs).Ok?
    ensures var m := FitExpectedReturnMap(ps, rs).value;
            && SquaredError(ps, rs, m.intercept, m.slope) <= SquaredError(ps, rs, a, b)
            && (SquaredError(ps, rs, m.intercept, m.slope) == SquaredError(ps, rs, a, b) <==>
                a == m.intercept && b == m.slope)
  {
    var m := FitExpectedReturnMap(ps, rs).value;
    var da, db := m.intercept - a, m.slope - b;
    hide SquaredError, Residuals, WeightedResiduals, SquaredLine, FitExpectedReturnMap, Cross, Centre, Probabilities,
         Prod;
    FitIs(ps, rs);
    NormalEquations(ps, rs);
    ErrorOfMovedLine(ps, rs, m.intercept, m.slope, da, db);
    ProdOne(da);
    ProdOne(db);
    SquaredLineIsNonNegative(ps, da, db);
    if SquaredLine(ps, da, db) == 0.0 { OnlyZeroVanishes(ps, da, db); }
    EqualLines(ps);
  }

  /** A fit exists exactly when the lengths agree, all are probabilities, and two of them differ. */
  lemma FitExistsIff(ps: seq<real>, rs: seq<real>)
    ensures FitExpectedReturnMap(ps, rs).Ok?
            <==> |ps| == |rs| && Probabilities(ps) && exists i, j :: 0 <= i < j < |ps| && ps[i] != ps[j]
  {
    if |ps| == |rs| && |ps| >= 2 && Probabilities(ps) {
      var p0 := Centre(ps);
      if forall i :: 0 <= i < |ps| ==> ps[i] == ps[0] {
        ConstantCentre(ps, ps[0]);
        ConstantCross(ps, ps[0]);
        assert forall i, j :: 0 <= i < j < |ps| ==> ps[i] == ps[j];
      } else {
        var k :| 0 <= k < |ps| && ps[k] != ps[0];
        SomeDeviation(ps, p0, if ps[k] != p0 then k else 0);
        assert 0 <= 0 < k < |ps|;
      }
    }
  }

  lemma {:induction false} SomeDeviation(ps: seq<real>, p0: real, k: int)
    requires k < |ps| && (k >= 0 ==> ps[k] != p0)
    ensures Cross(ps, ps, p0, p0) >= 0.0
    ensures k >= 0 ==> Cross(ps, ps, p0, p0) > 0.0
  {
    hide Prod;
    if ps != [] {
      var n := |ps| - 1;
      SquareIsNonNegative(ps[n] - p0);
      SomeDeviation(ps[..n], p0, if k < n then k else -1);
    }
  }

  lemma LineBetween(a: real, b: real, low: real, high: real, x: real)
    requires low <= x <= high
    ensures Min(Line(a, b, low), Line(a, b, high)) <= Line(a, b, x) <= Max(Line(a, b, low), Line(a, b, high))
  {
    if b >= 0.0 {
      Simulator.MulNonNegative(b, x - low);
      Simulator.MulNonNegative(b, high - x);
    } else {
      Simulator.MulNonNegative(-b, x - low);
      Simulator.MulNonNegative(-b, high - x);
    }
  }

  /**
   The applied map never leaves the interval between its values at the calibration extremes, and there it is the
   line.
   */
  lemma MapStaysBetweenEndpoints(ps: seq<real>, rs: seq<real>, p: real)
    requires FitExpectedReturnMap(ps, rs).Ok? && 0.0 <= p <= 1.0
    ensures var m := FitExpectedReturnMap(ps, rs).value;
            var low, high := Line(m.intercept, m.slope, m.minimum), Line(m.intercept, m.slope, m.maximum);
            && 0.0 <= m.minimum < m.maximum <= 1.0
            && ApplyExpectedReturn(m, p).Ok?
            && Min(low, high) <= ApplyExpectedReturn(m, p).value <= Max(low, high)
            && (m.minimum <= p <= m.maximum ==> ApplyExpectedReturn(m, p).value == Line(m.intercept, m.slope, p))
            && ApplyExpectedReturn(m, m.minimum) == Ok(low) && ApplyExpectedReturn(m, m.maximum) == Ok(high)
  {
    var m := FitExpectedReturnMap(ps, rs).value;
    FitExistsIff(ps, rs);
    FitIs(ps, rs);
    RangeIsProper(ps);
    hide FitExpectedReturnMap, Smallest, Largest, Cross, Centre, Prod, Line;
    assert m.minimum <= Clamp(m, p) <= m.maximum;
    LineBetween(m.intercept, m.slope, m.minimum, m.maximum, Clamp(m, p));
  }

  lemma RangeIsProper(ps: seq<real>)
    requires Probabilities(ps) && exists i, j :: 0 <= i < j < |ps| && ps[i] != ps[j]
    ensures 0.0 <= Smallest(ps) < Largest(ps) <= 1.0
  {
    var i, j :| 0 <= i < j < |ps| && ps[i] != ps[j];
    assert Smallest(ps) <= ps[i] && Smallest(ps) <= ps[j] && ps[i] <= Largest(ps) && ps[j] <= Largest(ps);
    assert Smallest(ps) in ps && Largest(ps) in ps;
  }

  // ---------------------------------------------------------------- scores

  function Target(hit: bool): real {
    if hit then 1.0 else 0.0
  }

  function MetricInputs(ps: seq<real>, labels: seq<bool>): Option<CalibrationError> {
    if ps == [] || |ps| != |labels| then Some(LengthMismatch)
    else if !Probabilities(ps) then Some(OutOfRange)
    else None
  }

  function BrierSum(ps: seq<real>, labels: seq<bool>): real
    requires |ps| == |labels|
  {
    if ps == [] then 0.0
    else
      var d := ps[|ps| - 1] - Target(labels[|ps| - 1]);
      BrierSum(ps[..|ps| - 1], labels[..|ps| - 1]) + Prod(d, d)
  }

  function BrierScore(ps: seq<real>, labels: seq<bool>): Result<real, CalibrationError> {
    var error := MetricInputs(ps, labels);
    if error.Some? then Err(error.value) else Ok(BrierSum(ps, labels) / |ps| as real)
  }

  /** The sum of the absolute probability errors. */
  function AbsoluteSum(ps: seq<real>, labels: seq<bool>): real
    requires |ps| == |labels|
  {
    if ps == [] then 0.0
    else AbsoluteSum(ps[..|ps| - 1], labels[..|ps| - 1]) + Abs(ps[|ps| - 1] - Target(labels[|ps| - 1]))
  }

  lemma SquareBelowAbsolute(p: real, y: bool)
    requires 0.0 <= p <= 1.0
    ensures var d := p - Target(y); 0.0 <= Prod(d, d) <= Abs(d) <= 1.0
  {
    var d := p - Target(y);
    Simulator.MulNonNegative(Abs(d), 1.0 - Abs(d));
    Simulator.MulNonNegative(Abs(d), Abs(d));
    assert d * d == Abs(d) * Abs(d);
  }

  lemma {:induction false} SumsAreBounded(ps: seq<real>, labels: seq<bool>)
    requires |ps| == |labels| && Probabilities(ps)
    ensures 0.0 <= BrierSum(ps, labels) <= AbsoluteSum(ps, labels) <= |ps| as real
  {
    if ps != [] {
      var n := |ps| - 1;
      SumsAreBounded(ps[..n], labels[..n]);
      SquareBelowAbsolute(ps[n], labels[n]);
    }
  }

  lemma QuotientInUnit(x: real, y: real, n: real)
    requires 0.0 <= x <= y <= n && n > 0.0
    ensures 0.0 <= x / n <= y / n <= 1.0
  {
    OverMonotone(0.0, x, n);
    OverMonotone(x, y, n);
    OverMonotone(y, n, n);
  }

  lemma Positive(x: real, n: real)
    requires x > 0.0 && n > 0.0
    ensures x * n > 0.0
  {
  }

  lemma OverMonotone(x: real, y: real, n: real)
    requires x <= y && n > 0.0
    ensures x / n <= y / n
  {
    var below, above := x / n, y / n;
    assert x == below * n && y == above * n;
    if above < below { Positive(below - above, n); }
  }

  /** A computed Brier score lies between zero and the mean absolute error, so within what stored evidence accepts. */
  lemma BrierIsBounded(ps: seq<real>, labels: seq<bool>)
    requires BrierScore(ps, labels).Ok?
    ensures 0.0 <= BrierScore(ps, labels).value <= AbsoluteSum(ps, labels) / |ps| as real <= 1.0
  {
    SumsAreBounded(ps, labels);
    QuotientInUnit(BrierSum(ps, labels), AbsoluteSum(ps, labels), |ps| as real);
  }

  function Targets(labels: seq<bool>): (targets: seq<real>)
    ensures |targets| == |labels| && forall i :: 0 <= i < |labels| ==> targets[i] == Target(labels[i])
  {
    if labels == [] then [] else Targets(labels[..|labels| - 1]) + [Target(labels[|labels| - 1])]
  }

  lemma IdentityLine(p: real)
    ensures Line(0.0, 1.0, p) == p
  {
  }

  lemma SameSquare(p: real, y: real)
    ensures Prod(p - y, p - y) == Prod(y - p, y - p)
  {
  }

  lemma BrierTerm(p: real, hit: bool)
    ensures Prod(p - Target(hit), p - Target(hit))
            == Prod(Target(hit) - Line(0.0, 1.0, p), Target(hit) - Line(0.0, 1.0, p))
  {
    IdentityLine(p);
    SameSquare(p, Target(hit));
    hide Prod, Line;
  }

  lemma {:induction false} BrierSumIsSquaredError(ps: seq<real>, labels: seq<bool>)
    requires |ps| == |labels|
    ensures BrierSum(ps, labels) == SquaredError(ps, Targets(labels), 0.0, 1.0)
  {
    hide Prod, Line, Target;
    if ps != [] {
      var n := |ps| - 1;
      var targets := Targets(labels);
      BrierSumIsSquaredError(ps[..n], labels[..n]);
      assert targets[..n] == Targets(labels[..n]);
      BrierTerm(ps[n], labels[n]);
      assert targets[n] == Target(labels[n]);
    }
  }

  lemma {:induction false} SquaredErrorVanishesIff(ps: seq<real>, rs: seq<real>)
    requires |ps| == |rs|
    ensures SquaredError(ps, rs, 0.0, 1.0) >= 0.0
    ensures SquaredError(ps, rs, 0.0, 1.0) == 0.0 <==> ps == rs
  {
    if ps != [] {
      var n := |ps| - 1;
      SquaredErrorVanishesIff(ps[..n], rs[..n]);
      IdentityLine(ps[n]);
      SquareIsNonNegative(rs[n] - ps[n]);
      hide Prod, Line;
      if rs[n] == ps[n] { assert rs[n] - ps[n] == 0.0; NoSquare(rs[n] - ps[n]); }
      assert ps == ps[..n] + [ps[n]] && rs == rs[..n] + [rs[n]];
    }
  }

  lemma NoSquare(x: real)
    requires x == 0.0
    ensures Prod(x, x) == 0.0
  {
  }

  lemma ZeroQuotient(x: real, n: real)
    requires n > 0.0
    ensures x / n == 0.0 <==> x == 0.0
  {
  }

  /**
   The Brier score is the squared error of the identity line against the targets, per observation; it is zero exactly
   for a forecast that is the outcome.
   */
  lemma BrierIsSquaredError(ps: seq<real>, labels: seq<bool>)
    ensures BrierScore(ps, labels).Ok? <==> ps != [] && |ps| == |labels| && Probabilities(ps)
    ensures BrierScore(ps, labels).Ok? ==>
              Prod(BrierScore(ps, labels).value, |ps| as real) == SquaredError(ps, Targets(labels), 0.0, 1.0)
    ensures BrierScore(ps, labels).Ok? ==> (BrierScore(ps, labels).value == 0.0 <==> ps == Targets(labels))
  {
    hide Prod, SquaredError, BrierSum, Probabilities;
    if BrierScore(ps, labels).Ok? {
      BrierSumIsSquaredError(ps, labels);
      SquaredErrorVanishesIff(ps, Targets(labels));
      QuotientTimes(BrierSum(ps, labels), |ps| as real);
      ZeroQuotient(BrierSum(ps, labels), |ps| as real);
    }
  }

  // ---------------------------------------------------------------- ten-bin calibration error

  predicate InBin(bin: int, p: real) {
    (bin as real / 10.0 <= p < (bin + 1) as real / 10.0) || (bin == 9 && p == 1.0)
  }

  function BinOf(p: real): int {
    if p == 1.0 then 9 else (p * 10.0).Floor
  }

  /** Every probability falls in exactly one of the ten bins. */
  lemma ExactlyOneBin(p: real, bin: int)
    requires 0.0 <= p <= 1.0
    ensures 0 <= BinOf(p) < 10 && InBin(BinOf(p), p)
    ensures 0 <= bin < 10 && InBin(bin, p) ==> bin == BinOf(p)
  {
  }

  function Members(ps: seq<real>, bin: int): nat {
    if ps == [] then 0 else Members(ps[..|ps| - 1], bin) + if InBin(bin, ps[|ps| - 1]) then 1 else 0
  }

  function MemberProbability(ps: seq<real>, bin: int): real {
    if ps == [] then 0.0
    else MemberProbability(ps[..|ps| - 1], bin) + if InBin(bin, ps[|ps| - 1]) then ps[|ps| - 1] else 0.0
  }

  function MemberTargets(ps: seq<real>, labels: seq<bool>, bin: int): real
    requires |ps| == |labels|
  {
    if ps == [] then 0.0
    else MemberTargets(ps[..|ps| - 1], labels[..|ps| - 1], bin)
         + if InBin(bin, ps[|ps| - 1]) then Target(labels[|ps| - 1]) else 0.0
  }

  /** The signed error collected in one bin. */
  function Gap(ps: seq<real>, labels: seq<bool>, bin: int): real
    requires |ps| == |labels|
  {
    MemberProbability(ps, bin) - MemberTargets(ps, labels, bin)
  }

  /** The absolute gaps of the first bins added up. */
  function GapTotal(ps: seq<real>, labels: seq<bool>, bins: nat): real
    requires |ps| == |labels|
  {
    if bins == 0 then 0.0 else GapTotal(ps, labels, bins - 1) + Abs(Gap(ps, labels, bins - 1))
  }

  lemma {:induction false} EmptyBinHasNoGap(ps: seq<real>, labels: seq<bool>, bin: int)
    requires |ps| == |labels| && Members(ps, bin) == 0
    ensures MemberProbability(ps, bin) == 0.0 && MemberTargets(ps, labels, bin) == 0.0
  {
    if ps != [] { EmptyBinHasNoGap(ps[..|ps| - 1], labels[..|ps| - 1], bin); }
  }

  /** A bin's weight times the distance of its two means is its absolute gap over the population. */
  lemma BinTerm(count: nat, total: nat, sp: real, sy: real)
    requires 0 < count && 0 < total
    ensures (count as real / total as real) * Abs(sp / count as real - sy / count as real)
            == Abs(sp - sy) / total as real
  {
    var c, n := count as real, total as real;
    assert sp / c - sy / c == (sp - sy) / c;
    ScaleAbs(sp - sy, c);
    WeightCancels(c, n, Abs(sp - sy));
  }

  lemma ScaleAbs(x: real, c: real)
    requires c > 0.0
    ensures Abs(x / c) == Abs(x) / c
  {
  }

  lemma WeightCancels(c: real, n: real, x: real)
    requires c > 0.0 && n > 0.0
    ensures (c / n) * (x / c) == x / n
  {
    var y := x / c;
    assert x == y * c;
    assert (c / n) * y == (c * y) / n;
  }

  lemma AddOver(x: real, y: real, n: real)
    requires n > 0.0
    ensures x / n + y / n == (x + y) / n
  {
  }

  method ExpectedCalibrationError(ps: seq<real>, labels: seq<bool>) returns (r: Result<real, CalibrationError>)
    ensures r.Ok? <==> MetricInputs(ps, labels).None?
    ensures r.Err? ==> MetricInputs(ps, labels) == Some(r.error)
    ensures r.Ok? ==> r.value == GapTotal(ps, labels, 10) / |ps| as real
    ensures r.Ok? ==> 0.0 <= r.value <= AbsoluteSum(ps, labels) / |ps| as real <= 1.0
  {
    var error := MetricInputs(ps, labels);
    if error.Some? { return Err(error.value); }
    var total := |ps| as real;
    var result := 0.0;
    for bin := 0 to 10
      invariant result == GapTotal(ps, labels, bin) / total
    {
      var members := Members(ps, bin);
      if members == 0 {
        EmptyBinHasNoGap(ps, labels, bin);
      } else {
        var mean := MemberProbability(ps, bin) / members as real;
        var positive := MemberTargets(ps, labels, bin) / members as real;
        BinTerm(members, |ps|, MemberProbability(ps, bin), MemberTargets(ps, labels, bin));
        AddOver(GapTotal(ps, labels, bin), Abs(Gap(ps, labels, bin)), total);
        result := result + members as real / total * Abs(mean - positive);
      }
    }
    GapsAreBounded(ps, labels);
    SumsAreBounded(ps, labels);
    QuotientInUnit(GapTotal(ps, labels, 10), AbsoluteSum(ps, labels), total);
    return Ok(result);
  }

  /** One more observation changes one bin, by no more than its own error. */
  lemma {:induction false} OneMoreObservation(ps: seq<real>, labels: seq<bool>, bins: nat)
    requires |ps| == |labels| && ps != [] && 0.0 <= ps[|ps| - 1] <= 1.0 && bins <= 10
    ensures var n := |ps| - 1;
            GapTotal(ps, labels, bins) <= GapTotal(ps[..n], labels[..n], bins)
                                          + if bins > BinOf(ps[n]) then Abs(ps[n] - Target(labels[n])) else 0.0
  {
    if bins > 0 {
      var n := |ps| - 1;
      OneMoreObservation(ps, labels, bins - 1);
      ExactlyOneBin(ps[n], bins - 1);
    }
  }

  lemma {:induction false} GapTotalIsNonNegative(ps: seq<real>, labels: seq<bool>, bins: nat)
    requires |ps| == |labels|
    ensures GapTotal(ps, labels, bins) >= 0.0
    ensures ps == [] ==> GapTotal(ps, labels, bins) == 0.0
  {
    if bins > 0 { GapTotalIsNonNegative(ps, labels, bins - 1); }
  }

  /** Within-bin cancellation only helps: the ten gaps add up to no more than the absolute errors. */
  lemma {:induction false} GapsAreBounded(ps: seq<real>, labels: seq<bool>)
    requires |ps| == |labels| && Probabilities(ps)
    ensures 0.0 <= GapTotal(ps, labels, 10) <= AbsoluteSum(ps, labels)
  {
    GapTotalIsNonNegative(ps, labels, 10);
    if ps != [] {
      var n := |ps| - 1;
      GapsAreBounded(ps[..n], labels[..n]);
      OneMoreObservation(ps, labels, 10);
      ExactlyOneBin(ps[n], 0);
    }
  }

  /** The signed gaps of the first bins added up. */
  function SignedTotal(ps: seq<real>, labels: seq<bool>, bins: nat): real
    requires |ps| == |labels|
  {
    if bins == 0 then 0.0 else SignedTotal(ps, labels, bins - 1) + Gap(ps, labels, bins - 1)
  }

  lemma {:induction false} OneMoreSigned(ps: seq<real>, labels: seq<bool>, bins: nat)
    requires |ps| == |labels| && ps != [] && 0.0 <= ps[|ps| - 1] <= 1.0 && bins <= 10
    ensures var n := |ps| - 1;
            SignedTotal(ps, labels, bins) == SignedTotal(ps[..n], labels[..n], bins)
                                             + if bins > BinOf(ps[n]) then ps[n] - Target(labels[n]) else 0.0
  {
    if bins > 0 {
      OneMoreSigned(ps, labels, bins - 1);
      ExactlyOneBin(ps[|ps| - 1], bins - 1);
    }
  }

  lemma {:induction false} NoObservations(bins: nat)
    ensures SignedTotal([], [], bins) == 0.0
  {
    if bins > 0 { NoObservations(bins - 1); }
  }

  lemma {:induction false} SignedGapsAddUp(ps: seq<real>, labels: seq<bool>)
    requires |ps| == |labels| && Probabilities(ps)
    ensures SignedTotal(ps, labels, 10) == Sum(ps) - Sum(Targets(labels))
  {
    if ps == [] {
      NoObservations(10);
    } else {
      var n := |ps| - 1;
      SignedGapsAddUp(ps[..n], labels[..n]);
      OneMoreSigned(ps, labels, 10);
      ExactlyOneBin(ps[n], 0);
      assert Targets(labels)[..n] == Targets(labels[..n]);
      hide Gap, InBin;
    }
  }

  lemma {:induction false} SignedWithinTotal(ps: seq<real>, labels: seq<bool>, bins: nat)
    requires |ps| == |labels|
    ensures Abs(SignedTotal(ps, labels, bins)) <= GapTotal(ps, labels, bins)
  {
    if bins > 0 { SignedWithinTotal(ps, labels, bins - 1); }
  }

  lemma {:induction false} OtherBinsAreEmpty(ps: seq<real>, labels: seq<bool>, only: int, bins: nat)
    requires |ps| == |labels| && bins <= 10 && Probabilities(ps)
    requires forall i :: 0 <= i < |ps| ==> BinOf(ps[i]) == only
    ensures GapTotal(ps, labels, bins) == if 0 <= only < bins then Abs(Gap(ps, labels, only)) else 0.0
    ensures SignedTotal(ps, labels, bins) == if 0 <= only < bins then Gap(ps, labels, only) else 0.0
  {
    if bins > 0 {
      OtherBinsAreEmpty(ps, labels, only, bins - 1);
      if bins - 1 != only {
        NoMembers(ps, labels, only, bins - 1);
        EmptyBinHasNoGap(ps, labels, bins - 1);
      }
    }
  }

  lemma {:induction false} NoMembers(ps: seq<real>, labels: seq<bool>, only: int, bin: int)
    requires |ps| == |labels| && Probabilities(ps) && 0 <= bin < 10 && bin != only
    requires forall i :: 0 <= i < |ps| ==> BinOf(ps[i]) == only
    ensures Members(ps, bin) == 0
  {
    if ps != [] {
      NoMembers(ps[..|ps| - 1], labels[..|ps| - 1], only, bin);
      ExactlyOneBin(ps[|ps| - 1], bin);
    }
  }

  /** The gaps add up to no less than the error on average, and to exactly that when one bin holds every observation. */
  lemma GapsCoverTheAverage(ps: seq<real>, labels: seq<bool>)
    requires |ps| == |labels| && Probabilities(ps)
    ensures Abs(Sum(ps) - Sum(Targets(labels))) <= GapTotal(ps, labels, 10)
    ensures (forall i, j :: 0 <= i < j < |ps| ==> BinOf(ps[i]) == BinOf(ps[j])) ==>
              GapTotal(ps, labels, 10) == Abs(Sum(ps) - Sum(Targets(labels)))
  {
    hide GapTotal, SignedTotal, Gap, Sum, Targets;
    SignedGapsAddUp(ps, labels);
    SignedWithinTotal(ps, labels, 10);
    if ps != [] { ExactlyOneBin(ps[0], 0); }
    hide BinOf, InBin;
    if forall i, j :: 0 <= i < j < |ps| ==> BinOf(ps[i]) == BinOf(ps[j]) {
      OtherBinsAreEmpty(ps, labels, if ps == [] then 0 else BinOf(ps[0]), 10);
    }
  }
}
