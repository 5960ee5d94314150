/**
 Entry thresholds taken from the calibration scores of one fold: a linear-interpolation quantile with a floor.
 */
module EntrySelectivity {
  import opened Wrappers
  import opened Domain
  import opened Arbitration
  import opened Regimes
  import Sorting

  datatype SelectivityError =
    | BadPercentile | NoScores
    | UnsupportedPolicy | BadFold | IndicesNotOrdered | KeysMismatch | PercentileNotRegistered
    | ProbabilityOutOfRange | UnreadableRow | TooFewEligible

  const THRESHOLD_FLOOR := 0.5
  const MINIMUM_ELIGIBLE := 40
  const PERCENTILES := {0.7, 0.75, 0.8}

  // ---------------------------------------------------------------- sorting

  predicate AtMost(a: real, b: real) {
    a <= b
  }

  ghost predicate Ascending(values: seq<real>) {
    forall i, j :: 0 <= i <= j < |values| ==> values[i] <= values[j]
  }

  function Sorted(values: seq<real>): seq<real> {
    Sorting.Sorted(AtMost, values)
  }

  lemma SortedSorts(values: seq<real>)
    ensures Ascending(Sorted(values)) && multiset(Sorted(values)) == multiset(values) && |Sorted(values)| == |values|
  {
    Sorting.SortedSorts(AtMost, values);
    var sorted := Sorted(values);
    forall i, j | 0 <= i <= j < |sorted| ensures sorted[i] <= sorted[j] {
      assert AtMost(sorted[i], sorted[j]);
    }
  }

  lemma LeastFirst(a: seq<real>, b: seq<real>)
    requires a != [] && b != [] && Ascending(a) && Ascending(b) && multiset(a) == multiset(b)
    ensures a[0] == b[0]
  {
    assert a[0] in multiset(b) && b[0] in multiset(a);
    assert a[0] in b && b[0] in a;
  }

  /** A multiset has one ascending arrangement. */
  lemma {:induction false} AscendingIsUnique(a: seq<real>, b: seq<real>)
    requires Ascending(a) && Ascending(b) && multiset(a) == multiset(b)
    ensures a == b
  {
    assert |multiset(a)| == |a| && |multiset(b)| == |b|;
    if a != [] {
      LeastFirst(a, b);
      TailMultiset(a);
      TailMultiset(b);
      AscendingIsUnique(a[1..], b[1..]);
      assert a == [a[0]] + a[1..] && b == [b[0]] + b[1..];
    }
  }

  lemma TailMultiset(a: seq<real>)
    requires a != []
    ensures multiset(a[1..]) == multiset(a) - multiset{a[0]}
  {
    assert a == [a[0]] + a[1..];
  }

  // ---------------------------------------------------------------- the quantile

  /** A fraction of a width. */
  function Share(width: real, fraction: real): real {
    width * fraction
  }

  /** The ordered scores read at a fractional position. */
  function ReadAt(ordered: seq<real>, position: real): real
    requires ordered != [] && 0.0 <= position <= (|ordered| - 1) as real
  {
    var lower := position.Floor;
    var upper := if lower + 1 <= |ordered| - 1 then lower + 1 else |ordered| - 1;
    var fraction := position - lower as real;
    ordered[lower] + Share(ordered[upper] - ordered[lower], fraction)
  }

  function Position(n: nat, percentile: real): (x: real)
    requires n >= 1 && 0.0 <= percentile <= 1.0
    ensures 0.0 <= x <= (n - 1) as real
  {
    ShareInRange((n - 1) as real, percentile);
    Share((n - 1) as real, percentile)
  }

  function LinearQuantile(values: seq<real>, percentile: real): Result<real, SelectivityError> {
    if !(0.0 <= percentile <= 1.0) then Err(BadPercentile)
    else if values == [] then Err(NoScores)
    else
      SortedSorts(values);
      var ordered := Sorted(values);
      if |ordered| == 1 then Ok(ordered[0]) else Ok(ReadAt(ordered, Position(|ordered|, percentile)))
  }

  lemma ShareInRange(width: real, p: real)
    requires width >= 0.0 && 0.0 <= p <= 1.0
    ensures 0.0 <= Share(width, p) <= width
  {
    assert width * (1.0 - p) >= 0.0;
  }

  lemma ShareIsMonotone(width: real, p: real, q: real)
    requires width >= 0.0 && p <= q
    ensures Share(width, p) <= Share(width, q)
  {
    assert width * (q - p) >= 0.0;
  }

  /** A reading lies between its two neighbours. */
  lemma ReadBetween(ordered: seq<real>, x: real)
    requires ordered != [] && Ascending(ordered) && 0.0 <= x <= (|ordered| - 1) as real
    ensures ordered[x.Floor] <= ReadAt(ordered, x)
    ensures x.Floor + 1 < |ordered| ==> ReadAt(ordered, x) <= ordered[x.Floor + 1]
    ensures x.Floor + 1 == |ordered| ==> ReadAt(ordered, x) == ordered[x.Floor]
  {
    var lower := x.Floor;
    var upper := if lower + 1 <= |ordered| - 1 then lower + 1 else |ordered| - 1;
    hide Share;
    ShareInRange(ordered[upper] - ordered[lower], x - lower as real);
  }

  /** Reading further to the right never reads less. */
  lemma ReadIsMonotone(ordered: seq<real>, x: real, y: real)
    requires ordered != [] && Ascending(ordered) && 0.0 <= x <= y <= (|ordered| - 1) as real
    ensures ReadAt(ordered, x) <= ReadAt(ordered, y)
  {
    hide Share;
    if x.Floor == y.Floor {
      var lower := x.Floor;
      var upper := if lower + 1 <= |ordered| - 1 then lower + 1 else |ordered| - 1;
      ShareIsMonotone(ordered[upper] - ordered[lower], x - lower as real, y - lower as real);
    } else {
      ReadBetween(ordered, x);
      ReadBetween(ordered, y);
    }
  }

  function CountAtMost(values: seq<real>, q: real): nat {
    if values == [] then 0 else (if values[0] <= q then 1 else 0) + CountAtMost(values[1..], q)
  }

  function CountBelow(values: seq<real>, q: real): nat {
    if values == [] then 0 else (if values[0] < q then 1 else 0) + CountBelow(values[1..], q)
  }

  /** The scores a threshold lets through. */
  function CountAdmitted(values: seq<real>, q: real): nat {
    if values == [] then 0 else (if values[0] >= q then 1 else 0) + CountAdmitted(values[1..], q)
  }

  lemma {:induction false} InsertCounts(x: real, values: seq<real>, q: real)
    ensures CountAtMost(Sorting.Insert(AtMost, x, values), q) == CountAtMost(values, q) + if x <= q then 1 else 0
    ensures CountBelow(Sorting.Insert(AtMost, x, values), q) == CountBelow(values, q) + if x < q then 1 else 0
  {
    var inserted := Sorting.Insert(AtMost, x, values);
    if values == [] || x <= values[0] {
      assert inserted[1..] == values;
    } else {
      InsertCounts(x, values[1..], q);
      assert inserted[1..] == Sorting.Insert(AtMost, x, values[1..]);
    }
  }

  lemma {:induction false} SortedCounts(values: seq<real>, q: real)
    ensures CountAtMost(Sorted(values), q) == CountAtMost(values, q)
    ensures CountBelow(Sorted(values), q) == CountBelow(values, q)
  {
    if values != [] {
      SortedCounts(values[1..], q);
      InsertCounts(values[0], Sorted(values[1..]), q);
    }
  }

  lemma {:induction false} PrefixCounts(ordered: seq<real>, q: real, k: nat)
    requires k <= |ordered| && forall i :: 0 <= i < k ==> ordered[i] <= q
    ensures CountAtMost(ordered, q) >= k
  {
    if k > 0 { PrefixCounts(ordered[1..], q, k - 1); }
  }

  lemma {:induction false} SuffixCounts(ordered: seq<real>, q: real, k: nat)
    requires k <= |ordered| && forall i :: k <= i < |ordered| ==> ordered[i] >= q
    ensures CountBelow(ordered, q) <= k
  {
    if ordered != [] { SuffixCounts(ordered[1..], q, if k > 0 then k - 1 else 0); }
  }

  /**
   For every score list: a quantile exists exactly for a probability and at least one score, and only the
   multiset of scores matters.
   */
  lemma QuantileIgnoresOrder(a: seq<real>, b: seq<real>, percentile: real)
    requires multiset(a) == multiset(b)
    ensures LinearQuantile(a, percentile) == LinearQuantile(b, percentile)
    ensures LinearQuantile(a, percentile).Ok? <==> 0.0 <= percentile <= 1.0 && a != []
  {
    assert |multiset(a)| == |a| && |multiset(b)| == |b|;
    SortedSorts(a);
    SortedSorts(b);
    AscendingIsUnique(Sorted(a), Sorted(b));
  }

  /** The quantile is the reading of the sorted scores, a single score included. */
  lemma QuantileReads(values: seq<real>, percentile: real)
    requires values != [] && 0.0 <= percentile <= 1.0
    ensures |Sorted(values)| == |values|
    ensures LinearQuantile(values, percentile) == Ok(ReadAt(Sorted(values), Position(|values|, percentile)))
  {
    hide Share, Sorted;
    SortedSorts(values);
    if |values| == 1 { ReadBetween(Sorted(values), Position(1, percentile)); }
  }

  /**
   The quantile lies between two scores, with at least `floor((n-1)p) + 1` scores at or below it and at most
   `floor((n-1)p) + 1` strictly below.
   */
  lemma QuantileRank(values: seq<real>, percentile: real)
    requires values != [] && 0.0 <= percentile <= 1.0
    ensures LinearQuantile(values, percentile).Ok?
    ensures var q := LinearQuantile(values, percentile).value;
            var rank := Position(|values|, percentile).Floor;
            && CountAtMost(values, q) >= rank + 1
            && CountBelow(values, q) <= (if rank + 1 < |values| then rank + 1 else rank)
            && (exists low, high :: low in values && high in values && low <= q <= high)
  {
    SortedSorts(values);
    var ordered := Sorted(values);
    var x := Position(|values|, percentile);
    var q := ReadAt(ordered, x);
    ReadBetween(ordered, x);
    QuantileReads(values, percentile);
    hide LinearQuantile, ReadAt, Share, Sorted, Position;
    SortedCounts(values, q);
    PrefixCounts(ordered, q, x.Floor + 1);
    SuffixCounts(ordered, q, if x.Floor + 1 < |values| then x.Floor + 1 else x.Floor);
    var upper := if x.Floor + 1 < |values| then x.Floor + 1 else x.Floor;
    assert ordered[x.Floor] in multiset(values) && ordered[upper] in multiset(values);
    assert ordered[x.Floor] in values && ordered[upper] in values && ordered[x.Floor] <= q <= ordered[upper];
  }

  lemma QuantileIsMonotone(values: seq<real>, p: real, q: real)
    requires values != [] && 0.0 <= p <= q <= 1.0
    ensures LinearQuantile(values, p).Ok? && LinearQuantile(values, q).Ok?
    ensures LinearQuantile(values, p).value <= LinearQuantile(values, q).value
  {
    hide LinearQuantile, ReadAt, Share, Sorted;
    SortedSorts(values);
    QuantileReads(values, p);
    QuantileReads(values, q);
    ShareIsMonotone((|values| - 1) as real, p, q);
    ReadIsMonotone(Sorted(values), Position(|values|, p), Position(|values|, q));
  }

  /** Two scores mixed in the proportion of the distances to their ranks. */
  function Mix(low: real, high: real, k: nat, x: real): real {
    Share(low, (k + 1) as real - x) + Share(high, x - k as real)
  }

  lemma MixIs(low: real, high: real, k: nat, x: real)
    ensures Mix(low, high, k, x) == low + Share(high - low, x - k as real)
    ensures x == (k + 1) as real ==> Mix(low, high, k, x) == high
  {
    assert low * ((k + 1) as real - x) == low - low * (x - k as real);
  }

  /** Between two ranks the reading moves from the lower score to the higher one in a straight line. */
  lemma ReadInterpolates(ordered: seq<real>, k: nat, x: real)
    requires k + 1 < |ordered| && k as real <= x <= (k + 1) as real
    ensures ReadAt(ordered, x) == Mix(ordered[k], ordered[k + 1], k, x)
  {
    MixIs(ordered[k], ordered[k + 1], k, x);
    if x == (k + 1) as real {
      var upper := if k + 2 <= |ordered| - 1 then k + 2 else |ordered| - 1;
      NoShare(ordered[upper] - ordered[k + 1]);
    }
    hide Share, Mix;
  }

  lemma NoShare(width: real)
    ensures Share(width, 0.0) == 0.0
  {
  }

  /**
   The quantile in plain terms: for whatever arrangement of the scores ascends, and for the ranks `k` and `k + 1` that
   enclose `(n - 1)p`, the two scores there mixed in the proportion of the distances.
   */
  lemma QuantileInterpolates(values: seq<real>, percentile: real, ordered: seq<real>, k: nat)
    requires 0.0 <= percentile <= 1.0 && Ascending(ordered) && multiset(ordered) == multiset(values)
    requires k + 1 < |ordered| && k as real <= Share((|ordered| - 1) as real, percentile) <= (k + 1) as real
    ensures LinearQuantile(values, percentile)
            == Ok(Mix(ordered[k], ordered[k + 1], k, Share((|ordered| - 1) as real, percentile)))
  {
    assert |multiset(ordered)| == |ordered| && |multiset(values)| == |values|;
    SortedSorts(values);
    AscendingIsUnique(Sorted(values), ordered);
    QuantileReads(values, percentile);
    ReadInterpolates(ordered, k, Share((|ordered| - 1) as real, percentile));
    hide Share, Mix, LinearQuantile, ReadAt, Sorted;
  }

  /** Every score is below a threshold or admitted by it. */
  lemma {:induction false} AdmittedOrBelow(values: seq<real>, q: real)
    ensures CountBelow(values, q) + CountAdmitted(values, q) == |values|
  {
    if values != [] { AdmittedOrBelow(values[1..], q); }
  }

  // ---------------------------------------------------------------- the rows one specialist may enter on

  const STRATEGY_ID := "candidate.multi_model.v0_3"
  const POLICY_VERSION := "candidate-multi-model-v0.3"
  const POLICY_SCHEMA := "candidate-strategy-policy-v3"

  datatype CandidatePolicy = CandidatePolicy(strategyId: string, version: string, schema: string, rules: Rules)

  /** The six feature columns the builder reads from a row. */
  datatype Reading = Reading(
    trendStrength: real,
    volatilityRatio: real,
    rangeRatio: real,
    streak: real,
    closeZscore: real,
    drawdown: real)
  {
    function Signals(): Signals {
      Regimes.Signals(trendStrength, volatilityRatio, rangeRatio, Truncated(streak))
    }
  }

  type Matrix = map<int, Reading>

  predicate Approved(policy: CandidatePolicy) {
    policy.strategyId == STRATEGY_ID && policy.version == POLICY_VERSION && policy.schema == POLICY_SCHEMA
  }

  /** `int(x)` rounds toward zero. */
  function Truncated(x: real): int {
    if x >= 0.0 then x.Floor else -((-x).Floor)
  }

  /** The row exists and the classifier accepts what it shows. */
  predicate Readable(matrix: Matrix, index: int) {
    index in matrix && index >= 0 && matrix[index].Signals().Valid()
  }

  predicate RegimeEligible(rules: Rules, specialist: Specialist, matrix: Matrix, index: int) {
    && Readable(matrix, index)
    && var regime := Classify(rules, matrix[index].Signals());
       match specialist
       case Trend => regime.Trending?
       case MeanReversion => regime.Ranging? && (matrix[index].closeZscore <= -0.75 || matrix[index].drawdown >= 0.02)
  }

  predicate StrictlyIncreasing(indices: seq<int>) {
    forall i | 0 < i < |indices| :: indices[i - 1] < indices[i]
  }

  function Eligible(rules: Rules, specialist: Specialist, matrix: Matrix, indices: seq<int>): seq<int> {
    if indices == [] then []
    else
      var last := indices[|indices| - 1];
      Eligible(rules, specialist, matrix, indices[..|indices| - 1])
      + if RegimeEligible(rules, specialist, matrix, last) then [last] else []
  }

  /** The eligible rows are exactly the indices that qualify, in their order. */
  ghost predicate AreEligible(rules: Rules, specialist: Specialist, matrix: Matrix, indices: seq<int>, rows: seq<int>) {
    && (forall k :: k in rows <==> k in indices && RegimeEligible(rules, specialist, matrix, k))
    && StrictlyIncreasing(rows)
  }

  lemma EligibleExtends(
    rules: Rules, specialist: Specialist, matrix: Matrix, front: seq<int>, last: int, before: seq<int>)
    requires AreEligible(rules, specialist, matrix, front, before)
    requires forall k :: k in before ==> k < last
    ensures var rows := before + if RegimeEligible(rules, specialist, matrix, last) then [last] else [];
            AreEligible(rules, specialist, matrix, front + [last], rows) && forall k :: k in rows ==> k <= last
  {
    hide RegimeEligible;
    if before != [] { assert before[|before| - 1] in before; }
  }

  lemma {:induction false} EligibleAre(rules: Rules, specialist: Specialist, matrix: Matrix, indices: seq<int>)
    requires StrictlyIncreasing(indices)
    ensures AreEligible(rules, specialist, matrix, indices, Eligible(rules, specialist, matrix, indices))
    ensures forall k :: k in Eligible(rules, specialist, matrix, indices) ==> k <= indices[|indices| - 1]
  {
    hide RegimeEligible;
    if indices != [] {
      var front, last := indices[..|indices| - 1], indices[|indices| - 1];
      EligibleAre(rules, specialist, matrix, front);
      EligibleExtends(rules, specialist, matrix, front, last, Eligible(rules, specialist, matrix, front));
      assert indices == front + [last];
    }
  }

  // ---------------------------------------------------------------- the threshold artifact

  datatype Threshold = Threshold(percentile: real, indices: seq<int>, scores: seq<real>, raw: real, effective: real)

  datatype Request = Request(
    fold: int,
    specialist: Specialist,
    percentile: real,
    indices: seq<int>,
    probabilities: map<int, real>,
    matrix: Matrix,
    policy: CandidatePolicy)
  {
    function Rows(): seq<int> {
      Eligible(policy.rules, specialist, matrix, indices)
    }

    predicate Covered() {
      probabilities.Keys == (set i | i in indices)
    }
  }

  function Scores(indices: seq<int>, probabilities: map<int, real>): (scores: seq<real>)
    requires forall k :: 0 <= k < |indices| ==> indices[k] in probabilities
    ensures |scores| == |indices| && forall k :: 0 <= k < |indices| ==> scores[k] == probabilities[indices[k]]
  {
    if indices == [] then []
    else Scores(indices[..|indices| - 1], probabilities) + [probabilities[indices[|indices| - 1]]]
  }

  predicate InRange(indices: seq<int>, probabilities: map<int, real>) {
    forall k | 0 <= k < |indices| :: indices[k] in probabilities && 0.0 <= probabilities[indices[k]] <= 1.0
  }

  predicate AllReadable(matrix: Matrix, indices: seq<int>) {
    forall k | 0 <= k < |indices| :: Readable(matrix, indices[k])
  }

  /** Every condition the builder checks, the order of the checks apart. */
  predicate Buildable(r: Request) {
    && Approved(r.policy)
    && r.fold >= 1
    && StrictlyIncreasing(r.indices)
    && r.Covered()
    && r.percentile in PERCENTILES
    && InRange(r.indices, r.probabilities)
    && AllReadable(r.matrix, r.indices)
    && |r.Rows()| >= MINIMUM_ELIGIBLE
  }

  lemma KeysAre(a: map<int, real>, indices: seq<int>)
    requires a.Keys == (set i | i in indices)
    ensures forall i :: i in a <==> i in indices
  {
    forall i ensures i in a <==> i in indices {
      assert i in a <==> i in a.Keys;
    }
  }

  /** The validating loop copies each probability it accepts. */
  method CheckedProbabilities(indices: seq<int>, probabilities: map<int, real>)
    returns (r: Result<map<int, real>, SelectivityError>)
    requires probabilities.Keys == (set i | i in indices)
    ensures r.Ok? <==> InRange(indices, probabilities)
    ensures r.Ok? ==> forall i :: i in indices ==> i in r.value && i in probabilities && r.value[i] == probabilities[i]
    ensures r.Err? ==> r.error == ProbabilityOutOfRange
  {
    var accepted: map<int, real> := map[];
    KeysAre(probabilities, indices);
    for k := 0 to |indices|
      invariant forall i :: 0 <= i < k ==> indices[i] in probabilities && 0.0 <= probabilities[indices[i]] <= 1.0
      invariant forall i :: 0 <= i < k ==> indices[i] in accepted && accepted[indices[i]] == probabilities[indices[i]]
    {
      assert indices[k] in indices;
      var value := probabilities[indices[k]];
      if value < 0.0 || value > 1.0 { return Err(ProbabilityOutOfRange); }
      accepted := accepted[indices[k] := value];
    }
    return Ok(accepted);
  }

  /** The scores of accepted rows are the probabilities given for them, and probabilities. */
  lemma AcceptedScores(r: Request, accepted: map<int, real>, rows: seq<int>)
    requires InRange(r.indices, r.probabilities)
    requires forall i :: i in r.indices ==> i in accepted && i in r.probabilities && accepted[i] == r.probabilities[i]
    requires forall k :: k in rows ==> k in r.indices
    ensures forall k :: 0 <= k < |rows| ==> rows[k] in accepted && rows[k] in r.probabilities
    ensures Scores(rows, accepted) == Scores(rows, r.probabilities)
    ensures forall x :: x in Scores(rows, accepted) ==> 0.0 <= x <= 1.0
  {
    forall i | i in rows
      ensures i in accepted && i in r.probabilities && accepted[i] == r.probabilities[i] && 0.0 <= accepted[i] <= 1.0
    {
      var j :| 0 <= j < |r.indices| && r.indices[j] == i;
    }
  }

  /** What the artifact holds: the qualifying rows in order, their scores, the quantile and the floored threshold. */
  ghost predicate IsArtifact(r: Request, t: Threshold) {
    && t.percentile == r.percentile
    && AreEligible(r.policy.rules, r.specialist, r.matrix, r.indices, t.indices)
    && (forall k :: 0 <= k < |t.indices| ==> t.indices[k] in r.probabilities)
    && t.scores == Scores(t.indices, r.probabilities)
    && |t.scores| >= MINIMUM_ELIGIBLE
    && LinearQuantile(t.scores, t.percentile) == Ok(t.raw)
    && t.effective == Max(t.raw, THRESHOLD_FLOOR)
    && THRESHOLD_FLOOR <= t.effective <= 1.0
  }

  lemma ThresholdInRange(scores: seq<real>, percentile: real)
    requires percentile in PERCENTILES && scores != [] && forall x :: x in scores ==> 0.0 <= x <= 1.0
    ensures LinearQuantile(scores, percentile).Ok?
    ensures THRESHOLD_FLOOR <= Max(LinearQuantile(scores, percentile).value, THRESHOLD_FLOOR) <= 1.0
  {
    hide LinearQuantile, CountAtMost, CountBelow, Position;
    QuantileRank(scores, percentile);
  }

  method BuildEntryThreshold(request: Request) returns (r: Result<Threshold, SelectivityError>)
    ensures r.Ok? <==> Buildable(request)
    ensures r.Ok? ==> IsArtifact(request, r.value)
  {
    hide Approved, StrictlyIncreasing, InRange, AllReadable, Eligible, AreEligible, Scores, LinearQuantile;
    if !Approved(request.policy) { return Err(UnsupportedPolicy); }
    if request.fold < 1 { return Err(BadFold); }
    if !StrictlyIncreasing(request.indices) { return Err(IndicesNotOrdered); }
    if !request.Covered() { return Err(KeysMismatch); }
    if request.percentile !in PERCENTILES { return Err(PercentileNotRegistered); }
    var accepted := CheckedProbabilities(request.indices, request.probabilities);
    if accepted.Err? { return Err(accepted.error); }
    if !AllReadable(request.matrix, request.indices) { return Err(UnreadableRow); }
    var rows := request.Rows();
    if |rows| < MINIMUM_ELIGIBLE { return Err(TooFewEligible); }
    EligibleAre(request.policy.rules, request.specialist, request.matrix, request.indices);
    EligibleAreIndices(request, rows);
    AcceptedScores(request, accepted.value, rows);
    var scores := Scores(rows, accepted.value);
    ThresholdInRange(scores, request.percentile);
    var raw := LinearQuantile(scores, request.percentile).value;
    return Ok(Threshold(request.percentile, rows, scores, raw, Max(raw, THRESHOLD_FLOOR)));
  }

  lemma EligibleAreIndices(r: Request, rows: seq<int>)
    requires AreEligible(r.policy.rules, r.specialist, r.matrix, r.indices, rows)
    ensures forall k :: k in rows ==> k in r.indices
  {
  }

  /** One request has one artifact: the meaning above leaves no freedom. */
  lemma ArtifactIsUnique(r: Request, t: Threshold, t': Threshold)
    requires IsArtifact(r, t) && IsArtifact(r, t')
    ensures t == t'
  {
    hide RegimeEligible, Scores, LinearQuantile;
    IncreasingIsUnique(t.indices, t'.indices);
  }

  /** Strictly increasing lists with the same members are equal. */
  lemma {:induction false} IncreasingIsUnique(a: seq<int>, b: seq<int>)
    requires StrictlyIncreasing(a) && StrictlyIncreasing(b) && forall k :: k in a <==> k in b
    ensures a == b
    decreases |a|
  {
    assert a == [] <==> b == [] by {
      if a != [] { assert a[0] in a; }
      if b != [] { assert b[0] in b; }
    }
    if a != [] {
      hide StrictlyIncreasing;
      var front, x := WithoutGreatest(a);
      var other, y := WithoutGreatest(b);
      assert x in b && y in a;
      IncreasingIsUnique(front, other);
    }
  }

  /** The last of a strictly increasing list is its greatest member, and occurs nowhere else. */
  lemma WithoutGreatest(a: seq<int>) returns (front: seq<int>, last: int)
    requires StrictlyIncreasing(a) && a != []
    ensures a == front + [last] && StrictlyIncreasing(front) && last in a
    ensures forall k :: k in a ==> k <= last
    ensures forall k :: k in front <==> k in a && k != last
  {
    front, last := a[..|a| - 1], a[|a| - 1];
    assert a == front + [last];
    LastIsGreatest(front, last);
  }

  lemma {:induction false} LastIsGreatest(front: seq<int>, last: int)
    requires StrictlyIncreasing(front) && (front != [] ==> front[|front| - 1] < last)
    ensures forall k :: k in front ==> k < last
  {
    if front != [] {
      var shorter, before := front[..|front| - 1], front[|front| - 1];
      assert front == shorter + [before];
      LastIsGreatest(shorter, before);
    }
  }

  function Effective(scores: seq<real>, percentile: real): real
    requires scores != [] && 0.0 <= percentile <= 1.0
  {
    Max(LinearQuantile(scores, percentile).value, THRESHOLD_FLOOR)
  }

  /**
   Thresholds built from one calibration partition are ordered like their percentiles, so the admitted scores
   are nested.
   */
  lemma ThresholdsAreNested(scores: seq<real>, p: real, q: real)
    requires scores != [] && 0.0 <= p <= q <= 1.0
    ensures LinearQuantile(scores, p).Ok? && LinearQuantile(scores, q).Ok?
    ensures var lower, upper := Effective(scores, p), Effective(scores, q);
            lower <= upper && forall k :: 0 <= k < |scores| && scores[k] >= upper ==> scores[k] >= lower
  {
    QuantileIsMonotone(scores, p, q);
  }

  /**
   A threshold the floor does not raise keeps out at most `floor((n-1)p) + 1` of the n scores, and never all
   of them.
   */
  lemma ThresholdAdmits(scores: seq<real>, p: real)
    requires scores != [] && 0.0 <= p <= 1.0
    ensures LinearQuantile(scores, p).Ok?
    ensures var rank := Position(|scores|, p).Floor;
            LinearQuantile(scores, p).value >= THRESHOLD_FLOOR ==>
              CountAdmitted(scores, Effective(scores, p)) >= if rank + 1 < |scores| then |scores| - rank - 1 else 1
  {
    hide Position, LinearQuantile, CountBelow, CountAdmitted, CountAtMost;
    QuantileRank(scores, p);
    AdmittedOrBelow(scores, Effective(scores, p));
  }
}
