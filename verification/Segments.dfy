/** Candle sequences cut into maximal continuous segments at exactly the declared closures. */
module Segments {
  import opened Wrappers
  import opened Domain
  import opened Closures

  datatype Request = Request(instrument: string, timeframe: Timeframe, startTime: int, endTime: int)

  datatype Segment = Segment(
    number: int,
    start: nat,
    end: nat,
    firstOpen: int,
    lastOpen: int,
    count: int,
    precedingClosure: Option<string>)

  datatype SegmentError =
    | EmptySequence | BadGeometry | WrongIdentity | OutsideRequest | NotCompleted | Duplicate | OutOfOrder
    | ScopeMismatch | BadBoundaries | UndeclaredGap | ObservedTwice | UnusedClosures | InvalidClosureId

  // ---------------------------------------------------------------- what is accepted

  ghost predicate Increasing(candles: seq<Candle>) {
    forall i, j :: 0 <= i < j < |candles| ==> candles[i].openTime < candles[j].openTime
  }

  ghost predicate SoundCandle(c: Candle, request: Request) {
    && c.Valid() && c.completed
    && c.instrument == request.instrument && c.timeframe == request.timeframe
    && request.startTime <= c.openTime < request.endTime
  }

  ghost predicate SoundSequence(candles: seq<Candle>, request: Request) {
    && candles != []
    && (forall i :: 0 <= i < |candles| ==> SoundCandle(candles[i], request))
    && Increasing(candles)
  }

  ghost predicate FullSlots(candles: seq<Candle>, request: Request) {
    forall i :: 0 <= i < |candles| ==>
      candles[i].closeTime - candles[i].openTime == request.timeframe.Duration() - MILLISECOND
  }

  predicate InScope(m: Manifest, request: Request) {
    m.instrument == request.instrument && m.timeframe == request.timeframe
    && m.startTime == request.startTime && m.endTime == request.endTime
  }

  /** The candle does not follow its predecessor immediately. */
  predicate GapAt(candles: seq<Candle>, d: int, i: int)
    requires 0 < i < |candles|
  {
    candles[i].openTime != candles[i - 1].openTime + d
  }

  /** The closure spans exactly the slots between the candle and its predecessor. */
  predicate Explains(c: Closure, candles: seq<Candle>, d: int, i: int)
    requires 0 < i < |candles|
  {
    c.gapStart == candles[i - 1].openTime + d && c.resumed == candles[i].openTime
  }

  ghost predicate Explained(m: Manifest, candles: seq<Candle>, d: int, i: int)
    requires 0 < i < |candles|
  {
    exists k :: 0 <= k < |m.closures| && Explains(m.closures[k], candles, d, i)
  }

  ghost predicate Observed(m: Manifest, candles: seq<Candle>, d: int, k: int)
    requires 0 <= k < |m.closures|
  {
    exists i :: 0 < i < |candles| && Explains(m.closures[k], candles, d, i)
  }

  /** Every gap is declared and every declaration is a gap. */
  ghost predicate GapsMatch(m: Manifest, candles: seq<Candle>, d: int) {
    && (forall i :: 0 < i < |candles| && GapAt(candles, d, i) ==> Explained(m, candles, d, i))
    && (forall k :: 0 <= k < |m.closures| ==> Observed(m, candles, d, k))
  }

  ghost predicate Segmentable(candles: seq<Candle>, request: Request, m: Manifest) {
    && SoundSequence(candles, request)
    && InScope(m, request)
    && FullSlots(candles, request)
    && GapsMatch(m, candles, request.timeframe.Duration())
    && AllWellNamed(m.closures)
  }

  // ---------------------------------------------------------------- what is produced

  /** No gap strictly inside a range of candle indices. */
  ghost predicate Unbroken(candles: seq<Candle>, d: int, start: int, end: int)
    requires 0 <= start <= end <= |candles|
  {
    forall i :: start < i < end ==> !GapAt(candles, d, i)
  }

  /** A run of consecutive slots, the k-th of the sequence. */
  ghost predicate SegmentAt(candles: seq<Candle>, d: int, s: Segment, k: nat) {
    && s.number == k + 1
    && s.start < s.end <= |candles|
    && s.count == s.end - s.start
    && s.firstOpen == candles[s.start].openTime
    && s.lastOpen == candles[s.end - 1].openTime
    && Unbroken(candles, d, s.start, s.end)
  }

  /** One segment ends and the next resumes where this closure ends; the break is real, so both are maximal. */
  ghost predicate Resumes(c: Closure, candles: seq<Candle>, d: int, before: Segment, after: Segment) {
    && before.end == after.start
    && 0 < after.start < |candles|
    && Explains(c, candles, d, after.start)
    && after.precedingClosure == Some(c.id)
  }

  ghost predicate ResumesAt(closures: seq<ValidClosure>, candles: seq<Candle>, d: int, segments: seq<Segment>, k: nat)
    requires k < |closures| && k + 1 < |segments|
  {
    Resumes(closures[k], candles, d, segments[k], segments[k + 1])
  }

  ghost predicate SegmentIn(candles: seq<Candle>, d: int, segments: seq<Segment>, k: nat)
    requires k < |segments|
  {
    SegmentAt(candles, d, segments[k], k)
  }

  /** The segments partition the candles; consecutive segments are separated by consecutive closures. */
  ghost predicate Segmented(closures: seq<ValidClosure>, candles: seq<Candle>, d: int, segments: seq<Segment>) {
    && |segments| == |closures| + 1
    && segments[0].start == 0 && segments[0].precedingClosure == None
    && segments[|segments| - 1].end == |candles|
    && (forall k :: 0 <= k < |segments| ==> SegmentIn(candles, d, segments, k))
    && (forall k :: 0 <= k < |closures| ==> ResumesAt(closures, candles, d, segments, k))
  }

  // ---------------------------------------------------------------- the structural checks

  predicate HasDuplicateOpen(candles: seq<Candle>) {
    exists i, j | 0 <= i < j < |candles| :: candles[i].openTime == candles[j].openTime
  }

  lemma DuplicateIsNotIncreasing(candles: seq<Candle>)
    ensures HasDuplicateOpen(candles) ==> !Increasing(candles)
  {
  }

  lemma OneIsIncreasing(candles: seq<Candle>)
    requires candles != []
    ensures Increasing(candles[..1])
  {
  }

  /** Comparing neighbours is enough. */
  lemma IncreasingExtends(candles: seq<Candle>, i: nat)
    requires 0 < i < |candles| && Increasing(candles[..i])
    ensures candles[i - 1].openTime < candles[i].openTime ==> Increasing(candles[..i + 1])
    ensures candles[i].openTime <= candles[i - 1].openTime ==> !Increasing(candles)
  {
    var front, longer := candles[..i], candles[..i + 1];
    assert forall k :: 0 <= k < i ==> longer[k] == front[k];
    assert front[i - 1] == candles[i - 1];
  }

  /** `validate_candle_sequence_structure`. */
  method CheckStructure(candles: seq<Candle>, request: Request) returns (error: Option<SegmentError>)
    ensures error.None? <==> SoundSequence(candles, request)
    ensures error != Some(ObservedTwice)
  {
    hide Increasing, HasDuplicateOpen;
    DuplicateIsNotIncreasing(candles);
    if candles == [] { return Some(EmptySequence); }
    if i :| 0 <= i < |candles| && !candles[i].Valid() { return Some(BadGeometry); }
    if i :| 0 <= i < |candles| && !(candles[i].instrument == request.instrument
                                    && candles[i].timeframe == request.timeframe) {
      assert !SoundCandle(candles[i], request);
      return Some(WrongIdentity);
    }
    if i :| 0 <= i < |candles| && !(request.startTime <= candles[i].openTime < request.endTime) {
      assert !SoundCandle(candles[i], request);
      return Some(OutsideRequest);
    }
    if i :| 0 <= i < |candles| && !candles[i].completed {
      assert !SoundCandle(candles[i], request);
      return Some(NotCompleted);
    }
    if HasDuplicateOpen(candles) { return Some(Duplicate); }
    assert forall i :: 0 <= i < |candles| ==> SoundCandle(candles[i], request);
    hide SoundCandle, Candle.Valid;
    OneIsIncreasing(candles);
    var previous := candles[0].openTime;
    for i := 1 to |candles|
      invariant previous == candles[i - 1].openTime
      invariant Increasing(candles[..i])
    {
      IncreasingExtends(candles, i);
      if candles[i].openTime <= previous { return Some(OutOfOrder); }
      previous := candles[i].openTime;
    }
    assert candles[..|candles|] == candles;
    return None;
  }

  function FindClosure(closures: seq<ValidClosure>, gapStart: int, resumed: int): Option<nat> {
    if closures == [] then None
    else
      var last := |closures| - 1;
      if closures[last].gapStart == gapStart && closures[last].resumed == resumed then Some(last)
      else FindClosure(closures[..last], gapStart, resumed)
  }

  lemma {:induction false} FindClosureFinds(closures: seq<ValidClosure>, gapStart: int, resumed: int)
    ensures match FindClosure(closures, gapStart, resumed)
            case Some(k) => k < |closures| && closures[k].gapStart == gapStart && closures[k].resumed == resumed
            case None => forall k :: 0 <= k < |closures| ==>
                                     !(closures[k].gapStart == gapStart && closures[k].resumed == resumed)
  {
    if closures != [] {
      FindClosureFinds(closures[..|closures| - 1], gapStart, resumed);
    }
  }

  function BuildSegment(candles: seq<Candle>, number: int, start: nat, end: nat, preceding: Option<string>): Segment
    requires start < end <= |candles|
  {
    Segment(number, start, end, candles[start].openTime, candles[end - 1].openTime, end - start, preceding)
  }

  /** A strictly increasing sequence of indices that misses none is 0, 1, 2, ... */
  lemma {:induction false} CoveringIndicesCount(picks: seq<nat>, n: nat)
    requires forall j :: 0 <= j < |picks| ==> picks[j] < n
    requires forall i, j :: 0 <= i < j < |picks| ==> picks[i] < picks[j]
    requires forall k :: 0 <= k < n ==> k in picks
    ensures |picks| == n && forall j :: 0 <= j < |picks| ==> picks[j] == j
  {
    if n == 0 {
    } else {
      assert n - 1 in picks;
      var j :| 0 <= j < |picks| && picks[j] == n - 1;
      assert picks[j] <= picks[|picks| - 1];
      forall k | 0 <= k < n - 1 ensures k in picks[..j] {
        assert k in picks;
        var i :| 0 <= i < |picks| && picks[i] == k;
        assert picks[..j][i] == k;
      }
      CoveringIndicesCount(picks[..j], n - 1);
      assert forall i :: 0 <= i < j ==> picks[..j][i] == picks[i];
    }
  }

  ghost predicate Picked(closures: seq<ValidClosure>, picks: seq<nat>) {
    && (forall j :: 0 <= j < |picks| ==> picks[j] < |closures|)
    && (forall i, j :: 0 <= i < j < |picks| ==> picks[i] < picks[j])
  }

  function StartOf(segments: seq<Segment>, k: nat): nat
    requires k <= |segments|
  {
    if k == 0 then 0 else segments[k - 1].end
  }

  function PrecedingOf(closures: seq<ValidClosure>, picks: seq<nat>, k: nat): Option<string>
    requires k <= |picks| && forall j :: 0 <= j < |picks| ==> picks[j] < |closures|
  {
    if k == 0 then None else Some(closures[picks[k - 1]].id)
  }

  /** One cut made by the scan: a finished segment and the closure found at its end. */
  ghost predicate CutAt(
    c: Closure, candles: seq<Candle>, d: int, start: nat, preceding: Option<string>, s: Segment, k: nat)
  {
    && SegmentAt(candles, d, s, k)
    && s.start == start
    && s.precedingClosure == preceding
    && s.end < |candles|
    && Explains(c, candles, d, s.end)
  }

  ghost predicate CutIn(
    closures: seq<ValidClosure>, candles: seq<Candle>, d: int, segments: seq<Segment>, picks: seq<nat>, k: nat)
    requires |picks| == |segments| && Picked(closures, picks) && k < |segments|
  {
    CutAt(closures[picks[k]], candles, d, StartOf(segments, k), PrecedingOf(closures, picks, k), segments[k], k)
  }

  ghost predicate Cuts(
    closures: seq<ValidClosure>, candles: seq<Candle>, d: int, segments: seq<Segment>, picks: seq<nat>)
  {
    && |picks| == |segments|
    && Picked(closures, picks)
    && forall k :: 0 <= k < |segments| ==> CutIn(closures, candles, d, segments, picks, k)
  }

  /** The part of `Segmented` that holds while the scan is still running. */
  ghost predicate Scanned(
    closures: seq<ValidClosure>, candles: seq<Candle>, d: int, segments: seq<Segment>, picks: seq<nat>,
    start: nat, index: nat, preceding: Option<string>)
  {
    && 0 <= start < index <= |candles|
    && Cuts(closures, candles, d, segments, picks)
    && start == StartOf(segments, |segments|)
    && preceding == PrecedingOf(closures, picks, |picks|)
    && Unbroken(candles, d, start, index)
  }

  /** The segments already built all carried a well-formed closure identity. */
  ghost predicate BuiltNamed(closures: seq<ValidClosure>, picks: seq<nat>) {
    forall j :: 0 <= j < |picks| - 1 ==> picks[j] < |closures| && WellNamed(closures[picks[j]].id)
  }

  /** What the constructor of a segment asks of the closure before it. */
  predicate Buildable(preceding: Option<string>) {
    preceding.Some? ==> WellNamed(preceding.value)
  }

  lemma UnbuildableIsIllNamed(
    closures: seq<ValidClosure>, candles: seq<Candle>, d: int, segments: seq<Segment>, picks: seq<nat>,
    start: nat, index: nat, preceding: Option<string>)
    requires Scanned(closures, candles, d, segments, picks, start, index, preceding) && !Buildable(preceding)
    ensures !AllWellNamed(closures)
  {
    hide WellNamed;
    assert preceding == Some(closures[picks[|picks| - 1]].id);
  }

  lemma BuildableExtends(
    closures: seq<ValidClosure>, candles: seq<Candle>, d: int, segments: seq<Segment>, picks: seq<nat>,
    start: nat, index: nat, preceding: Option<string>, k: nat)
    requires Scanned(closures, candles, d, segments, picks, start, index, preceding) && Buildable(preceding)
    requires BuiltNamed(closures, picks)
    ensures BuiltNamed(closures, picks + [k])
  {
    hide WellNamed;
    if picks != [] { assert preceding == Some(closures[picks[|picks| - 1]].id); }
  }

  lemma AllPickedNamed(closures: seq<ValidClosure>, picks: seq<nat>, k: nat)
    requires BuiltNamed(closures, picks + [k]) && forall i :: 0 <= i < |closures| ==> i in picks
    ensures AllWellNamed(closures)
  {
    hide WellNamed;
    forall i | 0 <= i < |closures| ensures WellNamed(closures[i].id) {
      assert i in picks;
      var j :| 0 <= j < |picks| && picks[j] == i;
      assert (picks + [k])[j] == i;
    }
  }

  ghost predicate UsedIds(closures: seq<ValidClosure>, picks: seq<nat>, used: set<string>) {
    && (forall j :: 0 <= j < |picks| ==> picks[j] < |closures| && closures[picks[j]].id in used)
    && (forall id :: id in used ==>
          exists j :: 0 <= j < |picks| && picks[j] < |closures| && closures[picks[j]].id == id)
  }

  lemma PickedLater(m: Manifest, candles: seq<Candle>, d: int, earlier: nat, later: nat, i: int, j: int)
    requires Separate(m.closures) && Increasing(candles) && d > 0
    requires earlier < |m.closures| && later < |m.closures| && 0 < i < j < |candles|
    requires Explains(m.closures[earlier], candles, d, i) && Explains(m.closures[later], candles, d, j)
    ensures earlier < later
  {
    assert candles[i].openTime <= candles[j - 1].openTime;
  }

  lemma EndsIncrease(
    closures: seq<ValidClosure>, candles: seq<Candle>, d: int, segments: seq<Segment>, picks: seq<nat>,
    j: nat, k: nat)
    requires Cuts(closures, candles, d, segments, picks) && j <= k < |segments|
    ensures segments[j].end <= segments[k].end
    decreases k
  {
    if j < k {
      EndsIncrease(closures, candles, d, segments, picks, j, k - 1);
      assert CutIn(closures, candles, d, segments, picks, k);
    }
  }

  lemma PickGrows(
    m: Manifest, candles: seq<Candle>, d: int, segments: seq<Segment>, picks: seq<nat>, index: nat, k: nat)
    requires Separate(m.closures) && Increasing(candles) && d > 0
    requires Cuts(m.closures, candles, d, segments, picks) && StartOf(segments, |segments|) < index < |candles|
    requires k < |m.closures| && Explains(m.closures[k], candles, d, index)
    ensures forall j :: 0 <= j < |picks| ==> picks[j] < k
  {
    forall j | 0 <= j < |picks| ensures picks[j] < k {
      assert CutIn(m.closures, candles, d, segments, picks, j);
      EndsIncrease(m.closures, candles, d, segments, picks, j, |segments| - 1);
      PickedLater(m, candles, d, picks[j], k, segments[j].end, index);
    }
  }

  lemma CutExtends(m: Manifest, candles: seq<Candle>, d: int, segments: seq<Segment>, picks: seq<nat>,
                   start: nat, index: nat, preceding: Option<string>, k: nat)
    requires Separate(m.closures) && Increasing(candles) && d > 0
    requires Scanned(m.closures, candles, d, segments, picks, start, index, preceding)
    requires index < |candles| && k < |m.closures| && Explains(m.closures[k], candles, d, index)
    ensures var cut := BuildSegment(candles, |segments| + 1, start, index, preceding);
            Scanned(m.closures, candles, d, segments + [cut], picks + [k], index, index + 1, Some(m.closures[k].id))
    ensures k !in picks
  {
    hide Explains, GapAt, Separate, Increasing;
    var cut := BuildSegment(candles, |segments| + 1, start, index, preceding);
    var segments', picks' := segments + [cut], picks + [k];
    PickGrows(m, candles, d, segments, picks, index, k);
    assert Picked(m.closures, picks');
    forall j | 0 <= j < |segments'|
      ensures CutIn(m.closures, candles, d, segments', picks', j)
    {
      if j < |segments| {
        assert CutIn(m.closures, candles, d, segments, picks, j);
      }
    }
  }

  lemma CutEnds(
    m: Manifest, candles: seq<Candle>, d: int, segments: seq<Segment>, picks: seq<nat>, last: Segment, k: nat)
    requires Cuts(m.closures, candles, d, segments, picks) && k < |segments| && picks[k] == k < |m.closures|
    requires last.start == StartOf(segments, |segments|)
             && last.precedingClosure == PrecedingOf(m.closures, picks, |picks|)
    ensures SegmentIn(candles, d, segments + [last], k)
    ensures ResumesAt(m.closures, candles, d, segments + [last], k)
    ensures Observed(m, candles, d, k)
  {
    hide Explains, GapAt, Unbroken;
    var all := segments + [last];
    assert CutIn(m.closures, candles, d, segments, picks, k);
    assert all[k] == segments[k] && Explains(m.closures[k], candles, d, all[k].end);
    if k + 1 < |segments| {
      assert CutIn(m.closures, candles, d, segments, picks, k + 1);
      assert all[k + 1] == segments[k + 1];
    }
    assert all[k + 1].start == all[k].end;
    assert PrecedingOf(m.closures, picks, k + 1) == Some(m.closures[k].id);
    assert all[k + 1].precedingClosure == Some(m.closures[k].id);
  }

  lemma AllPicked(m: Manifest, candles: seq<Candle>, d: int, segments: seq<Segment>, picks: seq<nat>,
                  start: nat, preceding: Option<string>)
    requires Scanned(m.closures, candles, d, segments, picks, start, |candles|, preceding)
    requires forall k :: 0 <= k < |m.closures| ==> k in picks
    ensures Segmented(m.closures, candles, d,
            segments + [BuildSegment(candles, |segments| + 1, start, |candles|, preceding)])
    ensures forall k :: 0 <= k < |m.closures| ==> Observed(m, candles, d, k)
  {
    hide Explains, GapAt, Observed, ResumesAt, CutIn;
    CoveringIndicesCount(picks, |m.closures|);
    var last := BuildSegment(candles, |segments| + 1, start, |candles|, preceding);
    var all := segments + [last];
    forall k | 0 <= k < |m.closures|
      ensures SegmentIn(candles, d, all, k) && ResumesAt(m.closures, candles, d, all, k) && Observed(m, candles, d, k)
    {
      CutEnds(m, candles, d, segments, picks, last, k);
    }
    assert SegmentIn(candles, d, all, |segments|);
    FirstStarts(m.closures, candles, d, segments, picks, last);
  }

  lemma FirstStarts(
    closures: seq<ValidClosure>, candles: seq<Candle>, d: int, segments: seq<Segment>, picks: seq<nat>,
    last: Segment)
    requires Cuts(closures, candles, d, segments, picks)
    requires last.start == StartOf(segments, |segments|)
             && last.precedingClosure == PrecedingOf(closures, picks, |picks|)
    ensures (segments + [last])[0].start == 0 && (segments + [last])[0].precedingClosure == None
  {
    if segments != [] {
      assert CutIn(closures, candles, d, segments, picks, 0);
    }
  }

  /** Separate closures cannot both span the same gap. */
  lemma SameGapSameClosure(closures: seq<ValidClosure>, candles: seq<Candle>, d: int, i: int, j: nat, k: nat)
    requires j < |closures| && k < |closures| && Separate(closures) && 0 < i < |candles|
    requires Explains(closures[j], candles, d, i) && Explains(closures[k], candles, d, i)
    ensures j == k
  {
    assert closures[j].gapStart == closures[k].gapStart && closures[j].resumed == closures[k].resumed;
  }

  /** Every index with a gap is the end of one of the segments cut so far. */
  lemma {:induction false} GapsAreCuts(
    closures: seq<ValidClosure>, candles: seq<Candle>, d: int, segments: seq<Segment>, picks: seq<nat>,
    n: nat, i: int)
    requires Cuts(closures, candles, d, segments, picks) && n <= |segments|
    requires 0 < i <= StartOf(segments, n) && i < |candles| && GapAt(candles, d, i)
    ensures exists j :: 0 <= j < |segments| && segments[j].end == i
    decreases n
  {
    assert CutIn(closures, candles, d, segments, picks, n - 1);
    if i <= StartOf(segments, n - 1) {
      GapsAreCuts(closures, candles, d, segments, picks, n - 1, i);
    } else {
      assert segments[n - 1].end == i;
    }
  }

  lemma UnusedIsUnobserved(m: Manifest, candles: seq<Candle>, d: int, segments: seq<Segment>, picks: seq<nat>,
                           start: nat, preceding: Option<string>, k: nat)
    requires d > 0 && Separate(m.closures)
    requires Scanned(m.closures, candles, d, segments, picks, start, |candles|, preceding)
    requires k < |m.closures| && k !in picks
    ensures !Observed(m, candles, d, k)
  {
    forall i | 0 < i < |candles| ensures !Explains(m.closures[k], candles, d, i) {
      if Explains(m.closures[k], candles, d, i) {
        ObservedIsPicked(m, candles, d, segments, picks, start, preceding, k, i);
      }
    }
  }

  lemma ObservedIsPicked(m: Manifest, candles: seq<Candle>, d: int, segments: seq<Segment>, picks: seq<nat>,
                         start: nat, preceding: Option<string>, k: nat, i: int)
    requires Separate(m.closures)
    requires Scanned(m.closures, candles, d, segments, picks, start, |candles|, preceding)
    requires k < |m.closures| && 0 < i < |candles| && Explains(m.closures[k], candles, d, i)
    ensures k in picks
  {
    assert GapAt(candles, d, i);
    GapsAreCuts(m.closures, candles, d, segments, picks, |segments|, i);
    var j :| 0 <= j < |segments| && segments[j].end == i;
    assert CutIn(m.closures, candles, d, segments, picks, j);
    SameGapSameClosure(m.closures, candles, d, i, picks[j], k);
  }

  lemma UsedExtends(closures: seq<ValidClosure>, picks: seq<nat>, used: set<string>, k: nat)
    requires DistinctKeys(closures) && UsedIds(closures, picks, used) && k < |closures| && k !in picks
    ensures closures[k].id !in used
    ensures UsedIds(closures, picks + [k], used + {closures[k].id})
  {
    var picks' := picks + [k];
    forall id | id in used + {closures[k].id}
      ensures exists j :: 0 <= j < |picks'| && picks'[j] < |closures| && closures[picks'[j]].id == id
    {
      if id in used {
        var j :| 0 <= j < |picks| && picks[j] < |closures| && closures[picks[j]].id == id;
        assert picks'[j] == picks[j];
      } else {
        assert picks'[|picks|] == k;
      }
    }
  }

  lemma UsedMeansPicked(closures: seq<ValidClosure>, picks: seq<nat>, used: set<string>, k: nat)
    requires DistinctKeys(closures) && UsedIds(closures, picks, used) && k < |closures|
    ensures closures[k].id in used <==> k in picks
  {
    if closures[k].id in used {
      var j :| 0 <= j < |picks| && picks[j] < |closures| && closures[picks[j]].id == closures[k].id;
      assert picks[j] == k;
    }
    if k in picks {
      var j :| 0 <= j < |picks| && picks[j] == k;
    }
  }

  lemma ScanGoesOn(closures: seq<ValidClosure>, candles: seq<Candle>, d: int, segments: seq<Segment>, picks: seq<nat>,
                   start: nat, index: nat, preceding: Option<string>)
    requires Scanned(closures, candles, d, segments, picks, start, index, preceding)
    requires index < |candles| && !GapAt(candles, d, index)
    ensures Scanned(closures, candles, d, segments, picks, start, index + 1, preceding)
  {
  }

  lemma ScanRange(closures: seq<ValidClosure>, candles: seq<Candle>, d: int, segments: seq<Segment>, picks: seq<nat>,
                  start: nat, index: nat, preceding: Option<string>)
    requires Scanned(closures, candles, d, segments, picks, start, index, preceding)
    ensures start < index <= |candles|
  {
  }

  ghost predicate ExplainedUpTo(m: Manifest, candles: seq<Candle>, d: int, index: int) {
    forall i :: 0 < i < |candles| && i < index && GapAt(candles, d, i) ==> Explained(m, candles, d, i)
  }

  // ---------------------------------------------------------------- the scan

  /** `validate_and_segment_candle_sequence`: succeeds exactly on segmentable input. */
  method SegmentCandles(candles: seq<Candle>, request: Request, m: Manifest)
    returns (r: Result<seq<Segment>, SegmentError>)
    requires WellFormed(m)
    ensures r.Ok? <==> Segmentable(candles, request, m)
    ensures r.Ok? ==> Segmented(m.closures, candles, request.timeframe.Duration(), r.value)
    ensures r != Err(ObservedTwice)
  {
    hide Exact, SoundCandle, Scanned, UsedIds, Segmented, Observed, Explained, Increasing, Separate, DistinctKeys,
         AllWellNamed;
    var fault := CheckStructure(candles, request);
    if fault.Some? { return Err(fault.value); }
    if !InScope(m, request) { return Err(ScopeMismatch); }
    var d := request.timeframe.Duration();
    if i :| 0 <= i < |candles| && candles[i].closeTime - candles[i].openTime != d - MILLISECOND {
      return Err(BadBoundaries);
    }
    r := Scan(candles, m, d);
  }

  method Scan(candles: seq<Candle>, m: Manifest, d: int) returns (r: Result<seq<Segment>, SegmentError>)
    requires DistinctKeys(m.closures) && Separate(m.closures) && candles != [] && Increasing(candles) && d > 0
    ensures r.Ok? <==> GapsMatch(m, candles, d) && AllWellNamed(m.closures)
    ensures r.Ok? ==> Segmented(m.closures, candles, d, r.value)
    ensures r != Err(ObservedTwice)
  {
    hide Scanned, UsedIds, Segmented, Observed, Explained, Increasing, Separate, DistinctKeys, BuiltNamed, Buildable,
         AllWellNamed;
    NothingBuilt(m.closures);
    var used: set<string>, segments: seq<Segment> := {}, [];
    var start: nat, preceding: Option<string>, previous: Candle := 0, None, candles[0];
    ghost var picks: seq<nat> := [];
    NothingScanned(m.closures, candles, d);
    for index := 1 to |candles|
      invariant previous == candles[index - 1]
      invariant Scanned(m.closures, candles, d, segments, picks, start, index, preceding)
      invariant UsedIds(m.closures, picks, used) && BuiltNamed(m.closures, picks)
      invariant ExplainedUpTo(m, candles, d, index)
    {
      var current := candles[index];
      var expected := previous.openTime + d;
      if current.openTime != expected {
        FindClosureFinds(m.closures, expected, current.openTime);
        var found := FindClosure(m.closures, expected, current.openTime);
        if found.None? {
          NothingExplains(m, candles, d, index);
          return Err(UndeclaredGap);
        }
        var closure := m.closures[found.value];
        ItExplains(m, candles, d, index, found.value);
        ScanRange(m.closures, candles, d, segments, picks, start, index, preceding);
        CutExtends(m, candles, d, segments, picks, start, index, preceding, found.value);
        UsedExtends(m.closures, picks, used, found.value);
        if closure.id in used {
          assert false;
          return Err(ObservedTwice);
        }
        if !Buildable(preceding) {
          UnbuildableIsIllNamed(m.closures, candles, d, segments, picks, start, index, preceding);
          return Err(InvalidClosureId);
        }
        BuildableExtends(m.closures, candles, d, segments, picks, start, index, preceding, found.value);
        segments := segments + [BuildSegment(candles, |segments| + 1, start, index, preceding)];
        used := used + {closure.id};
        picks := picks + [found.value];
        start := index;
        preceding := Some(closure.id);
      } else {
        ScanGoesOn(m.closures, candles, d, segments, picks, start, index, preceding);
      }
      previous := current;
    }
    if k :| 0 <= k < |m.closures| && m.closures[k].id !in used {
      UsedMeansPicked(m.closures, picks, used, k);
      UnusedIsUnobserved(m, candles, d, segments, picks, start, preceding, k);
      return Err(UnusedClosures);
    }
    forall k | 0 <= k < |m.closures| ensures k in picks {
      UsedMeansPicked(m.closures, picks, used, k);
    }
    AllPicked(m, candles, d, segments, picks, start, preceding);
    ScanRange(m.closures, candles, d, segments, picks, start, |candles|, preceding);
    if !Buildable(preceding) {
      UnbuildableIsIllNamed(m.closures, candles, d, segments, picks, start, |candles|, preceding);
      return Err(InvalidClosureId);
    }
    BuildableExtends(m.closures, candles, d, segments, picks, start, |candles|, preceding, 0);
    AllPickedNamed(m.closures, picks, 0);
    return Ok(segments + [BuildSegment(candles, |segments| + 1, start, |candles|, preceding)]);
  }

  lemma NothingBuilt(closures: seq<ValidClosure>)
    ensures BuiltNamed(closures, [])
  {
  }

  lemma NothingScanned(closures: seq<ValidClosure>, candles: seq<Candle>, d: int)
    requires candles != []
    ensures Scanned(closures, candles, d, [], [], 0, 1, None) && UsedIds(closures, [], {})
  {
  }

  lemma NothingExplains(m: Manifest, candles: seq<Candle>, d: int, i: int)
    requires 0 < i < |candles|
    requires forall k :: 0 <= k < |m.closures| ==>
               !(m.closures[k].gapStart == candles[i - 1].openTime + d && m.closures[k].resumed == candles[i].openTime)
    ensures !Explained(m, candles, d, i)
  {
  }

  lemma ItExplains(m: Manifest, candles: seq<Candle>, d: int, i: int, k: nat)
    requires 0 < i < |candles| && k < |m.closures|
    requires m.closures[k].gapStart == candles[i - 1].openTime + d && m.closures[k].resumed == candles[i].openTime
    ensures Explains(m.closures[k], candles, d, i) && Explained(m, candles, d, i)
  {
    assert Explains(m.closures[k], candles, d, i);
  }
}
