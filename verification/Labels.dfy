/** Cost-aware outcome labels: which decisions are labelled, from which candles, and what a positive label means. */
module Labels {
  import opened Wrappers
  import opened Domain
  import opened Simulator
  import opened Segments
  import Closures
  import FeatureMatrix
  import SegmentFacts
  import opened Sorting

  datatype LabelPolicy = LabelPolicy(simulation: ValidConfig, horizon: int, extraHurdleBps: real)
  {
    /** What the policy constructor accepts, the promotable flag apart. */
    predicate Valid() {
      horizon >= 1 && extraHurdleBps >= 0.0 && simulation.timing.NextCandle? && simulation.limitFill.Conservative?
    }

    function HurdleBps(): real {
      (simulation.takerFeeRate * 10000.0 + simulation.halfSpreadBps + simulation.slippageBps) * 2.0 + extraHurdleBps
    }
  }

  datatype Label = Label(
    decision: nat,
    entry: nat,
    exit: nat,
    entryReference: real,
    exitReference: real,
    entryFill: real,
    exitFill: real,
    grossReturn: real,
    netReturn: real,
    hurdleBps: real,
    positive: bool)

  datatype LabelError = BadCandles | NegativeIndex | DuplicateIndex | NotCovered | CostsExceedPrice | PriceRoundsAway

  predicate SoundCandle(c: seq<Candle>, k: int)
    requires 0 <= k < |c|
  {
    && c[k].completed && c[k].instrument == c[0].instrument && c[k].timeframe == c[0].timeframe
    && c[k].open > 0.0
    && (k > 0 ==> c[k].openTime > c[k - 1].openTime)
  }

  predicate Sound(c: seq<Candle>) {
    forall k | 0 <= k < |c| :: SoundCandle(c, k)
  }

  // ---------------------------------------------------------------- one observation

  function Fee(price: real, p: LabelPolicy): real {
    price * p.simulation.takerFeeRate
  }

  function NetReturn(entry: real, exit: real, p: LabelPolicy): real
    requires entry > 0.0
  {
    EntryCostPositive(entry, p);
    ((exit - Fee(exit, p)) - (entry + Fee(entry, p))) / (entry + Fee(entry, p))
  }

  lemma EntryCostPositive(entry: real, p: LabelPolicy)
    requires entry > 0.0
    ensures entry + Fee(entry, p) >= entry > 0.0
  {
    MulNonNegative(entry, p.simulation.takerFeeRate);
  }

  /** The round trip of one unit, bought at the next open and sold `horizon` candles later. */
  function Observe(p: LabelPolicy, c: seq<Candle>, d: nat): Result<Label, LabelError>
    requires p.Valid() && Sound(c) && d + 1 + p.horizon < |c|
  {
    var entry, exit := d + 1, d + 1 + p.horizon;
    assert SoundCandle(c, entry) && SoundCandle(c, exit);
    var buy := AdversePrice(c[entry].open, Buy, p.simulation);
    var sell := AdversePrice(c[exit].open, SellToClose, p.simulation);
    if buy <= 0.0 || sell <= 0.0 then Err(CostsExceedPrice)
    else
      var bought := RoundFillPrice(buy, p.simulation.priceTick, Buy);
      var sold := RoundFillPrice(sell, p.simulation.priceTick, SellToClose);
      if bought <= 0.0 || sold <= 0.0 then Err(PriceRoundsAway)
      else
        var net := NetReturn(bought, sold, p);
        Ok(Label(d, entry, exit, c[entry].open, c[exit].open, bought, sold, sold / bought - 1.0, net,
                 p.HurdleBps(), net > p.HurdleBps() / 10000.0))
  }

  lemma AdverseIsAdverse(reference: real, config: ValidConfig)
    requires reference > 0.0
    ensures AdversePrice(reference, Buy, config) >= reference
            && AdversePrice(reference, SellToClose, config) <= reference
  {
    MulNonNegative(reference, config.halfSpreadBps);
    MulNonNegative(reference, config.slippageBps);
  }

  lemma RoundingIsAdverse(price: real, tick: real)
    requires tick > 0.0
    ensures RoundFillPrice(price, tick, Buy) >= price && RoundFillPrice(price, tick, SellToClose) <= price
  {
    FloorToBounds(-price, tick);
    FloorToBounds(price, tick);
  }

  /** Fees on both sides only lower a return. */
  lemma NetBelowGross(entry: real, exit: real, p: LabelPolicy)
    requires entry > 0.0 && exit > 0.0
    ensures NetReturn(entry, exit, p) <= exit / entry - 1.0
  {
    EntryCostPositive(entry, p);
    EntryCostPositive(exit, p);
    var cost, gross := entry + Fee(entry, p), exit / entry;
    var paid := exit - Fee(exit, p);
    assert exit == gross * entry;
    RatioIsPositive(exit, entry);
    MulMonotone(entry, cost, gross);
    assert paid <= gross * cost;
    QuotientAtMost(paid, cost, gross);
    assert NetReturn(entry, exit, p) == (paid - cost) / cost;
    LessOne(paid, cost);
  }

  lemma LessOne(x: real, y: real)
    requires y > 0.0
    ensures (x - y) / y == x / y - 1.0
  {
    var q := x / y;
    assert x == q * y;
    LessOneTimes(q, y);
    QuotientIs(x - y, q - 1.0, y);
  }

  lemma LessOneTimes(q: real, y: real)
    ensures (q - 1.0) * y == q * y - y
  {
  }

  lemma QuotientIs(x: real, q: real, y: real)
    requires y > 0.0 && x == q * y
    ensures x / y == q
  {
  }

  lemma RatioIsPositive(x: real, y: real)
    requires x > 0.0 && y > 0.0
    ensures x / y > 0.0
  {
  }

  lemma QuotientAtMost(x: real, y: real, q: real)
    requires y > 0.0 && x <= q * y
    ensures x / y <= q
  {
    var r := x / y;
    assert x == r * y;
    if r > q { MulStrict(q, r, y); }
  }

  lemma HurdleIsNonNegative(p: LabelPolicy)
    requires p.Valid()
    ensures p.HurdleBps() >= 0.0
  {
  }

  /**
  Labels are conservative: the fills are no better than the opens, net is no better than gross, and a positive
  label means the exit open beat the entry open by more than the hurdle.
  */
  lemma LabelsAreConservative(p: LabelPolicy, c: seq<Candle>, d: nat)
    requires p.Valid() && Sound(c) && d + 1 + p.horizon < |c| && Observe(p, c, d).Ok?
    ensures var l := Observe(p, c, d).value;
            && l.entryFill >= l.entryReference > 0.0
            && 0.0 < l.exitFill <= l.exitReference
            && l.netReturn <= l.grossReturn <= l.exitReference / l.entryReference - 1.0
            && (l.positive ==> l.grossReturn > l.hurdleBps / 10000.0 >= 0.0 && l.exitReference > l.entryReference)
  {
    var l := Observe(p, c, d).value;
    assert SoundCandle(c, l.entry) && SoundCandle(c, l.exit);
    AdverseIsAdverse(l.entryReference, p.simulation);
    AdverseIsAdverse(l.exitReference, p.simulation);
    RoundingIsAdverse(AdversePrice(l.entryReference, Buy, p.simulation), p.simulation.priceTick);
    RoundingIsAdverse(AdversePrice(l.exitReference, SellToClose, p.simulation), p.simulation.priceTick);
    NetBelowGross(l.entryFill, l.exitFill, p);
    HurdleIsNonNegative(p);
    hide AdversePrice, RoundFillPrice, NetReturn, LabelPolicy.HurdleBps, Observe, Sound;
    QuotientsCompare(l.exitFill, l.exitReference, l.entryReference, l.entryFill);
    if l.positive { AboveOne(l.exitReference, l.entryReference); }
  }

  lemma QuotientsCompare(low: real, high: real, small: real, large: real)
    requires 0.0 < low <= high && 0.0 < small <= large
    ensures low / large <= high / small
  {
    var q := high / small;
    assert high == q * small;
    RatioIsPositive(high, small);
    MulMonotone(small, large, q);
    QuotientAtMost(low, large, q);
  }

  lemma AboveOne(x: real, y: real)
    requires y > 0.0 && x / y > 1.0
    ensures x > y
  {
    assert x == (x / y) * y;
    MulStrict(1.0, x / y, y);
  }

  // ---------------------------------------------------------------- which decisions are labelled

  ghost predicate Holds(s: Segment, i: int) {
    s.start <= i < s.end
  }

  ghost predicate SameSegment(segments: seq<Segment>, a: int, b: int) {
    exists k :: 0 <= k < |segments| && Holds(segments[k], a) && Holds(segments[k], b)
  }

  /** The outcome is complete and, with segments, decision, entry and exit share one. */
  ghost predicate Labelable(p: LabelPolicy, c: seq<Candle>, segments: Option<seq<Segment>>, d: int) {
    && d >= 0 && d + 1 + p.horizon < |c|
    && (segments.Some? ==> SameSegment(segments.value, d, d + 1 + p.horizon))
  }

  predicate AtMost(a: int, b: int) {
    a <= b
  }

  predicate NonDecreasing(values: seq<int>) {
    forall i, j | 0 <= i <= j < |values| :: values[i] <= values[j]
  }

  lemma SortedIndices(values: seq<int>)
    ensures NonDecreasing(Sorted(AtMost, values))
    ensures multiset(Sorted(AtMost, values)) == multiset(values)
  {
    SortedSorts(AtMost, values);
    var sorted := Sorted(AtMost, values);
    forall i, j | 0 <= i <= j < |sorted| ensures sorted[i] <= sorted[j] {
      assert AtMost(sorted[i], sorted[j]);
    }
  }

  /** The labels of the decisions processed so far: exactly the labelable ones, in order. */
  ghost predicate Labelled(
    p: LabelPolicy, c: seq<Candle>, segments: Option<seq<Segment>>, order: seq<int>, labels: seq<Label>)
    requires p.Valid() && Sound(c)
  {
    && (forall l :: l in labels ==> IsLabelOf(p, c, segments, order, l))
    && (forall d :: d in order && Labelable(p, c, segments, d) ==> exists l :: l in labels && l.decision == d)
    && (forall i, j :: 0 <= i < j < |labels| ==> labels[i].decision < labels[j].decision)
  }

  ghost predicate IsLabelOf(p: LabelPolicy, c: seq<Candle>, segments: Option<seq<Segment>>, order: seq<int>, l: Label)
    requires p.Valid() && Sound(c)
  {
    l.decision in order && Labelable(p, c, segments, l.decision) && Observe(p, c, l.decision) == Ok(l)
  }

  lemma SkipKeeps(
    p: LabelPolicy, c: seq<Candle>, segments: Option<seq<Segment>>, order: seq<int>, labels: seq<Label>,
    d: int)
    requires p.Valid() && Sound(c) && Labelled(p, c, segments, order, labels) && !Labelable(p, c, segments, d)
    ensures Labelled(p, c, segments, order + [d], labels)
  {
    hide Observe, Labelable;
    forall l | l in labels ensures IsLabelOf(p, c, segments, order + [d], l) {
      assert IsLabelOf(p, c, segments, order, l);
    }
  }

  lemma AppendKeeps(
    p: LabelPolicy, c: seq<Candle>, segments: Option<seq<Segment>>, order: seq<int>, labels: seq<Label>,
    d: int, label': Label)
    requires p.Valid() && Sound(c) && Labelled(p, c, segments, order, labels) && Labelable(p, c, segments, d)
    requires Observe(p, c, d) == Ok(label') && label'.decision == d
    requires forall x :: x in order ==> x < d
    ensures Labelled(p, c, segments, order + [d], labels + [label'])
  {
    hide Observe, Labelable;
    var longer := labels + [label'];
    forall l | l in longer ensures IsLabelOf(p, c, segments, order + [d], l) {
      if l in labels { assert IsLabelOf(p, c, segments, order, l); }
    }
    forall x | x in order + [d] && Labelable(p, c, segments, x) ensures exists l :: l in longer && l.decision == x {
      if x in order {
        var l :| l in labels && l.decision == x;
        assert l in longer;
      } else {
        assert label' in longer;
      }
    }
    forall i | 0 <= i < |labels| ensures labels[i].decision < d {
      assert labels[i] in labels;
      assert IsLabelOf(p, c, segments, order, labels[i]);
    }
  }

  /** Sharing a segment number is sharing a segment; the entry lies between decision and exit. */
  method SharesSegment(segments: seq<Segment>, c: seq<Candle>, d: nat, exit: nat) returns (same: bool)
    requires SegmentFacts.Ordered(segments) && d + 1 < exit < |c| && Contiguous(segments)
             && |c| <= segments[|segments| - 1].end
    ensures same <==> SameSegment(segments, d, exit)
  {
    hide SameSegment;
    var a := FindSegment(segments, d);
    var e := FindSegment(segments, d + 1);
    var b := FindSegment(segments, exit);
    var first := SegmentFacts.SegmentNumberForIndex(segments, d);
    var entry := SegmentFacts.SegmentNumberForIndex(segments, d + 1);
    var last := SegmentFacts.SegmentNumberForIndex(segments, exit);
    SegmentFacts.NumberIsCount(segments, a, d);
    SegmentFacts.NumberIsCount(segments, e, d + 1);
    SegmentFacts.NumberIsCount(segments, b, exit);
    same := entry.value == first.value && last.value == first.value;
    SameIffSameNumber(segments, d, d + 1, exit, a, e, b);
  }

  lemma SameIffSameNumber(segments: seq<Segment>, d: int, entry: int, exit: int, a: nat, e: nat, b: nat)
    requires SegmentFacts.Ordered(segments) && d < entry < exit
    requires a < |segments| && e < |segments| && b < |segments|
    requires Holds(segments[a], d) && Holds(segments[e], entry) && Holds(segments[b], exit)
    ensures a == e == b <==> SameSegment(segments, d, exit)
  {
    if k :| 0 <= k < |segments| && Holds(segments[k], d) && Holds(segments[k], exit) {
      OnlyOne(segments, k, a, d);
      OnlyOne(segments, k, b, exit);
      OnlyOne(segments, k, e, entry);
    }
  }

  lemma OnlyOne(segments: seq<Segment>, j: nat, k: nat, i: int)
    requires SegmentFacts.Ordered(segments) && j < |segments| && k < |segments|
    requires Holds(segments[j], i) && Holds(segments[k], i)
    ensures j == k
  {
  }

  /** Consecutive segments leave no candle out. */
  ghost predicate Contiguous(segments: seq<Segment>) {
    forall k :: 0 < k < |segments| ==> Continues(segments, k)
  }

  ghost predicate Continues(segments: seq<Segment>, k: int)
    requires 0 < k < |segments|
  {
    segments[k].start == segments[k - 1].end
  }

  /** The segmenter's own output is contiguous. */
  lemma SegmentationIsContiguous(
    closures: seq<Closures.ValidClosure>, c: seq<Candle>, slot: int, segments: seq<Segment>)
    requires Segmented(closures, c, slot, segments)
    ensures Contiguous(segments)
  {
    forall k | 0 < k < |segments| ensures Continues(segments, k) {
      assert ResumesAt(closures, c, slot, segments, k - 1);
    }
  }

  lemma FindSegment(segments: seq<Segment>, i: nat) returns (k: nat)
    requires SegmentFacts.Ordered(segments) && Contiguous(segments) && i < segments[|segments| - 1].end
    ensures k < |segments| && Holds(segments[k], i)
  {
    k := 0;
    while segments[k].end <= i
      invariant 0 <= k < |segments| && segments[k].start <= i
      decreases |segments| - k
    {
      if k == |segments| - 1 { return; }
      assert Continues(segments, k + 1);
      k := k + 1;
    }
  }

  /** A decision the builder gets past: the coverage check runs only for a decision whose outcome is complete. */
  ghost predicate Passes(p: LabelPolicy, c: seq<Candle>, segments: Option<seq<Segment>>, d: int)
    requires p.Valid() && Sound(c) && (segments.Some? ==> segments.value != [])
  {
    && d >= 0
    && (segments.Some? && d + 1 + p.horizon < |c| ==> FeatureMatrix.Covered(c, segments.value))
    && (Labelable(p, c, segments, d) ==> Observe(p, c, d).Ok?)
  }

  method LabelOne(p: LabelPolicy, c: seq<Candle>, segments: Option<seq<Segment>>, d: int)
    returns (r: Result<Option<Label>, LabelError>)
    requires p.Valid() && Sound(c)
             && (segments.Some? ==> SegmentFacts.Ordered(segments.value) && Contiguous(segments.value))
    ensures r.Ok? <==> Passes(p, c, segments, d)
    ensures r.Ok? && Labelable(p, c, segments, d) ==>
              r.value == Some(Observe(p, c, d).value) && Observe(p, c, d).Ok? && Observe(p, c, d).value.decision == d
    ensures r.Ok? && !Labelable(p, c, segments, d) ==> r.value.None?
  {
    if d < 0 { return Err(NegativeIndex); }
    var exit := d + 1 + p.horizon;
    if exit >= |c| { return Ok(None); }
    hide Observe, SameSegment, Contiguous, Sound;
    if segments.Some? {
      if !FeatureMatrix.Covered(c, segments.value) { return Err(NotCovered); }
      var same := SharesSegment(segments.value, c, d, exit);
      if !same { return Ok(None); }
    }
    var observation := Observe(p, c, d);
    if observation.Err? { return Err(observation.error); }
    ObservationIsOf(p, c, d);
    return Ok(Some(observation.value));
  }

  ghost predicate Increasing(order: seq<int>) {
    forall i, j :: 0 <= i < j < |order| ==> order[i] < order[j]
  }

  ghost predicate AllPass(p: LabelPolicy, c: seq<Candle>, segments: Option<seq<Segment>>, order: seq<int>)
    requires p.Valid() && Sound(c) && (segments.Some? ==> segments.value != [])
  {
    forall i :: 0 <= i < |order| ==> Passes(p, c, segments, order[i])
  }

  /** The loop over the sorted decisions. */
  method BuildSorted(p: LabelPolicy, c: seq<Candle>, order: seq<int>, segments: Option<seq<Segment>>)
    returns (r: Result<seq<Label>, LabelError>)
    requires p.Valid() && Sound(c) && NonDecreasing(order)
    requires segments.Some? ==> SegmentFacts.Ordered(segments.value) && Contiguous(segments.value)
    ensures r.Ok? <==> Increasing(order) && AllPass(p, c, segments, order)
    ensures r.Ok? ==> Labelled(p, c, segments, order, r.value)
  {
    assert segments.Some? ==> segments.value != [];
    hide Observe, Labelable, Sound, Labelled, Passes, SegmentFacts.Ordered, Contiguous;
    var labels := [];
    NothingLabelled(p, c, segments);
    for n := 0 to |order|
      invariant Labelled(p, c, segments, order[..n], labels)
      invariant forall i, j :: 0 <= i < j < n ==> order[i] < order[j]
      invariant forall i :: 0 <= i < n ==> Passes(p, c, segments, order[i])
    {
      var d := order[n];
      assert order[..n + 1] == order[..n] + [d];
      if d in order[..n] { return Err(DuplicateIndex); }
      NewIsLarger(order, n);
      var one := LabelOne(p, c, segments, d);
      if one.Err? { return Err(one.error); }
      if one.value.Some? {
        AppendKeeps(p, c, segments, order[..n], labels, d, one.value.value);
        labels := labels + [one.value.value];
      } else {
        SkipKeeps(p, c, segments, order[..n], labels, d);
      }
    }
    assert order[..|order|] == order;
    return Ok(labels);
  }

  /**
   The build succeeds exactly for sound candles, distinct decisions, and decisions that each pass; then it
   labels exactly the labelable ones.
   */
  method Build(p: LabelPolicy, c: seq<Candle>, eligible: seq<int>, segments: Option<seq<Segment>>)
    returns (r: Result<seq<Label>, LabelError>)
    requires p.Valid() && (segments.Some? ==> SegmentFacts.Ordered(segments.value) && Contiguous(segments.value))
    ensures r.Ok? <==> Sound(c) && NoDup(eligible) && AllPass(p, c, segments, eligible)
    ensures r.Ok? ==> Labelled(p, c, segments, eligible, r.value)
  {
    if !Sound(c) { return Err(BadCandles); }
    hide Observe, Labelable, Sound, Labelled, Passes, SegmentFacts.Ordered, Contiguous, NoDup, Increasing, AllPass,
         Sorted;
    var order := Sorted(AtMost, eligible);
    SortedIndices(eligible);
    forall x ensures x in order <==> x in eligible { SameMultisetSameMembers(order, eligible, x); }
    DistinctIffIncreasing(order, eligible);
    PassesReadMembers(p, c, segments, order, eligible);
    r := BuildSorted(p, c, order, segments);
    if r.Ok? { LabelledReadsMembers(p, c, segments, order, eligible, r.value); }
  }

  lemma PassesReadMembers(p: LabelPolicy, c: seq<Candle>, segments: Option<seq<Segment>>, a: seq<int>, b: seq<int>)
    requires p.Valid() && Sound(c) && (segments.Some? ==> segments.value != []) && forall x :: x in a <==> x in b
    ensures AllPass(p, c, segments, a) <==> AllPass(p, c, segments, b)
  {
    hide Passes;
    if AllPass(p, c, segments, a) {
      forall i | 0 <= i < |b| ensures Passes(p, c, segments, b[i]) { assert b[i] in b; }
    }
    if AllPass(p, c, segments, b) {
      forall i | 0 <= i < |a| ensures Passes(p, c, segments, a[i]) { assert a[i] in a; }
    }
  }

  /** Sorted decisions are strictly increasing exactly when the given ones were distinct. */
  lemma DistinctIffIncreasing(order: seq<int>, eligible: seq<int>)
    requires NonDecreasing(order) && multiset(order) == multiset(eligible)
    ensures NoDup(eligible) <==> Increasing(order)
  {
    if NoDup(eligible) {
      NoDupReadsMultiset(eligible, order);
    }
    if Increasing(order) {
      NoDupReadsMultiset(order, eligible);
    }
  }

  lemma NewIsLarger(order: seq<int>, n: nat)
    requires NonDecreasing(order) && n < |order| && order[n] !in order[..n]
    ensures forall x :: x in order[..n] ==> x < order[n]
    ensures forall i :: 0 <= i < n ==> order[i] < order[n]
  {
    forall i | 0 <= i < n ensures order[i] < order[n] { assert order[i] in order[..n]; }
  }

  lemma NothingLabelled(p: LabelPolicy, c: seq<Candle>, segments: Option<seq<Segment>>)
    requires p.Valid() && Sound(c)
    ensures Labelled(p, c, segments, [], [])
  {
  }

  lemma ObservationIsOf(p: LabelPolicy, c: seq<Candle>, d: nat)
    requires p.Valid() && Sound(c) && d + 1 + p.horizon < |c| && Observe(p, c, d).Ok?
    ensures Observe(p, c, d).value.decision == d
  {
  }

  lemma LabelledReadsMembers(
    p: LabelPolicy, c: seq<Candle>, segments: Option<seq<Segment>>, a: seq<int>, b: seq<int>,
    labels: seq<Label>)
    requires p.Valid() && Sound(c) && Labelled(p, c, segments, a, labels) && forall x :: x in a <==> x in b
    ensures Labelled(p, c, segments, b, labels)
  {
    hide Observe, Labelable;
    forall l | l in labels ensures IsLabelOf(p, c, segments, b, l) { assert IsLabelOf(p, c, segments, a, l); }
  }

  // ---------------------------------------------------------------- no look-ahead, no outage

  /** A label depends on its entry and exit opens alone: all other candles and prices may differ. */
  lemma LabelsReadTwoOpens(p: LabelPolicy, c: seq<Candle>, c': seq<Candle>, d: nat)
    requires p.Valid() && Sound(c) && Sound(c') && d + 1 + p.horizon < |c| && d + 1 + p.horizon < |c'|
    requires c[d + 1].open == c'[d + 1].open && c[d + 1 + p.horizon].open == c'[d + 1 + p.horizon].open
    ensures Observe(p, c, d) == Observe(p, c', d)
  {
    hide AdversePrice, RoundFillPrice, NetReturn;
    assert SoundCandle(c, d + 1) && SoundCandle(c, d + 1 + p.horizon);
  }

  /** Outage safety: over a segmented dataset, decision, entry and exit of every label are consecutive slots. */
  lemma LabelsSpanNoOutage(
    p: LabelPolicy, c: seq<Candle>, closures: seq<Closures.ValidClosure>, slot: int, segments: seq<Segment>,
    eligible: seq<int>, labels: seq<Label>, l: Label, t: nat)
    requires p.Valid() && Sound(c) && Segmented(closures, c, slot, segments)
    requires Labelled(p, c, Some(segments), eligible, labels) && l in labels && t <= l.exit - l.decision
    ensures l.entry == l.decision + 1 && l.exit == l.entry + p.horizon < |c|
    ensures c[l.exit].openTime - c[l.exit - t].openTime == t * slot
  {
    assert IsLabelOf(p, c, Some(segments), eligible, l);
    var k :| 0 <= k < |segments| && Holds(segments[k], l.decision) && Holds(segments[k], l.decision + 1 + p.horizon);
    assert SegmentIn(c, slot, segments, k);
    FeatureMatrix.EvenlySpaced(c, slot, segments[k].start, segments[k].end, l.exit, t);
  }

  // ---------------------------------------------------------------- labels of a segmented dataset

  /** Every candle from decision to exit is a slot after its predecessor. */
  ghost predicate Uninterrupted(p: LabelPolicy, c: seq<Candle>, slot: int, d: int)
    requires p.Valid()
  {
    0 <= d && d + 1 + p.horizon < |c| && Unbroken(c, slot, d, d + 2 + p.horizon)
  }

  /** On the segmenter's own output two candles share a segment exactly when no gap lies between them. */
  lemma SameSegmentIffUnbroken(
    closures: seq<Closures.ValidClosure>, c: seq<Candle>, slot: int, segments: seq<Segment>, a: nat, b: nat)
    requires Segmented(closures, c, slot, segments) && a <= b < |c|
    ensures SameSegment(segments, a, b) <==> Unbroken(c, slot, a, b + 1)
  {
    hide GapAt;
    if SameSegment(segments, a, b) {
      var k :| 0 <= k < |segments| && Holds(segments[k], a) && Holds(segments[k], b);
      assert SegmentIn(c, slot, segments, k);
    } else {
      SegmentationIsContiguous(closures, c, slot, segments);
      SegmentFacts.SegmentationIsOrdered(closures, c, slot, segments);
      var k := FindSegment(segments, a);
      assert !Holds(segments[k], b);
      SegmentFacts.BoundaryIsGap(closures, c, slot, segments, k);
    }
  }

  lemma LabelableIffUninterrupted(
    p: LabelPolicy, closures: seq<Closures.ValidClosure>, c: seq<Candle>, slot: int, segments: seq<Segment>, d: int)
    requires p.Valid() && Segmented(closures, c, slot, segments)
    ensures Labelable(p, c, Some(segments), d) <==> Uninterrupted(p, c, slot, d)
  {
    hide Segmented, SameSegment;
    if d >= 0 && d + 1 + p.horizon < |c| {
      SameSegmentIffUnbroken(closures, c, slot, segments, d, d + 1 + p.horizon);
    }
  }

  lemma SegmentableIsSound(c: seq<Candle>, request: Request, m: Closures.Manifest)
    requires Segmentable(c, request, m)
    ensures Sound(c)
  {
    forall k | 0 <= k < |c| ensures SoundCandle(c, k) {
      assert Segments.SoundCandle(c[k], request) && Segments.SoundCandle(c[0], request);
    }
  }

  datatype DatasetError = Unsegmentable(segmentation: SegmentError) | Unlabelled(labelling: LabelError)

  /** Every decision can be labelled, or its outcome is incomplete or interrupted. */
  ghost predicate AllObservable(p: LabelPolicy, c: seq<Candle>, slot: int, eligible: seq<int>)
    requires p.Valid() && Sound(c)
  {
    forall d :: d in eligible ==> d >= 0 && (Uninterrupted(p, c, slot, d) ==> Observe(p, c, d).Ok?)
  }

  /** The labels are exactly the observations of the uninterrupted decisions, in strictly increasing order. */
  ghost predicate AreObservations(p: LabelPolicy, c: seq<Candle>, slot: int, eligible: seq<int>, labels: seq<Label>)
    requires p.Valid() && Sound(c)
  {
    && (forall l :: l in labels ==>
          l.decision in eligible && Uninterrupted(p, c, slot, l.decision) && Observe(p, c, l.decision) == Ok(l))
    && (forall d :: d in eligible && Uninterrupted(p, c, slot, d) ==> exists l :: l in labels && l.decision == d)
    && (forall i, j :: 0 <= i < j < |labels| ==> labels[i].decision < labels[j].decision)
  }

  lemma PassesIffObservable(
    p: LabelPolicy, closures: seq<Closures.ValidClosure>, c: seq<Candle>, slot: int, segments: seq<Segment>,
    eligible: seq<int>)
    requires p.Valid() && Sound(c) && Segmented(closures, c, slot, segments)
    ensures AllPass(p, c, Some(segments), eligible) <==> AllObservable(p, c, slot, eligible)
  {
    hide Observe, Labelable, Unbroken;
    forall d ensures Labelable(p, c, Some(segments), d) <==> Uninterrupted(p, c, slot, d) {
      LabelableIffUninterrupted(p, closures, c, slot, segments, d);
    }
    assert FeatureMatrix.Covered(c, segments);
    if AllPass(p, c, Some(segments), eligible) {
      forall d | d in eligible ensures d >= 0 && (Uninterrupted(p, c, slot, d) ==> Observe(p, c, d).Ok?) {
        var i :| 0 <= i < |eligible| && eligible[i] == d;
        assert Passes(p, c, Some(segments), eligible[i]);
      }
    }
    if AllObservable(p, c, slot, eligible) {
      forall i | 0 <= i < |eligible| ensures Passes(p, c, Some(segments), eligible[i]) {
        assert eligible[i] in eligible;
      }
    }
  }

  lemma LabelledAreObservations(
    p: LabelPolicy, closures: seq<Closures.ValidClosure>, c: seq<Candle>, slot: int, segments: seq<Segment>,
    eligible: seq<int>, labels: seq<Label>)
    requires p.Valid() && Sound(c) && Segmented(closures, c, slot, segments)
    requires Labelled(p, c, Some(segments), eligible, labels)
    ensures AreObservations(p, c, slot, eligible, labels)
  {
    hide Observe, Labelable, Unbroken;
    forall d ensures Labelable(p, c, Some(segments), d) <==> Uninterrupted(p, c, slot, d) {
      LabelableIffUninterrupted(p, closures, c, slot, segments, d);
    }
    forall l | l in labels ensures l.decision in eligible && Uninterrupted(p, c, slot, l.decision)
      && Observe(p, c, l.decision) == Ok(l)
    {
      assert IsLabelOf(p, c, Some(segments), eligible, l);
    }
  }

  /** Segment a dataset and label it: success and labels are told by the candles' own gaps, segments left out. */
  method LabelDataset(p: LabelPolicy, c: seq<Candle>, eligible: seq<int>, request: Request, m: Closures.Manifest)
    returns (r: Result<seq<Label>, DatasetError>)
    requires p.Valid() && Closures.WellFormed(m)
    ensures Segmentable(c, request, m) ==> Sound(c)
    ensures r.Ok? <==>
              Segmentable(c, request, m) && NoDup(eligible)
              && AllObservable(p, c, request.timeframe.Duration(), eligible)
    ensures r.Ok? ==> AreObservations(p, c, request.timeframe.Duration(), eligible, r.value)
  {
    hide Observe, Sound, Segmentable, Segmented, NoDup, AllPass, Labelled, AllObservable, AreObservations,
         SegmentFacts.Ordered, Contiguous, Closures.WellFormed;
    if Segmentable(c, request, m) { SegmentableIsSound(c, request, m); }
    var segmented := SegmentCandles(c, request, m);
    if segmented.Err? { return Err(Unsegmentable(segmented.error)); }
    var slot := request.timeframe.Duration();
    SegmentFacts.SegmentationIsOrdered(m.closures, c, slot, segmented.value);
    SegmentationIsContiguous(m.closures, c, slot, segmented.value);
    PassesIffObservable(p, m.closures, c, slot, segmented.value, eligible);
    var labels := Build(p, c, eligible, Some(segmented.value));
    if labels.Err? { return Err(Unlabelled(labels.error)); }
    LabelledAreObservations(p, m.closures, c, slot, segmented.value, eligible, labels.value);
    return Ok(labels.value);
  }
}
