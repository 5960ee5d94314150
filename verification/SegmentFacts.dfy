/** What a segmentation conserves, that it is unique, and how it numbers candles. */
module SegmentFacts {
  import opened Wrappers
  import opened Domain
  import opened Closures
  import opened Segments
  import EngineTheorems
  import EngineSteps
  import Engine
  import Trades

  // ---------------------------------------------------------------- conservation of slots

  function Unavailable(closures: seq<ValidClosure>): int {
    if closures == [] then 0 else Unavailable(closures[..|closures| - 1]) + closures[|closures| - 1].unavailable
  }

  lemma {:induction false} UnbrokenIsEven(candles: seq<Candle>, d: int, start: int, end: int, i: int)
    requires 0 <= start <= i < end <= |candles| && Unbroken(candles, d, start, end)
    ensures candles[i].openTime == candles[start].openTime + d * (i - start)
    decreases i
  {
    if i > start {
      UnbrokenIsEven(candles, d, start, end, i - 1);
      assert !GapAt(candles, d, i);
      assert d * (i - start) == d * (i - 1 - start) + d;
    }
  }

  lemma UnavailableExtends(closures: seq<ValidClosure>, k: nat)
    requires 0 < k <= |closures|
    ensures Unavailable(closures[..k]) == Unavailable(closures[..k - 1]) + closures[k - 1].unavailable
  {
    assert closures[..k][..k - 1] == closures[..k - 1];
  }

  /** From the last candle before a closure to the first after it: one slot and the unavailable ones. */
  lemma ClosureSlots(m: Manifest, candles: seq<Candle>, segments: seq<Segment>, k: nat)
    requires WellFormed(m) && Segmented(m.closures, candles, m.timeframe.Duration(), segments) && 0 < k < |segments|
    ensures var d := m.timeframe.Duration();
            && 0 < segments[k - 1].end == segments[k].start < |candles|
            && candles[segments[k].start].openTime - candles[segments[k - 1].end - 1].openTime
               == d + m.closures[k - 1].unavailable * d
  {
    var d := m.timeframe.Duration();
    assert ResumesAt(m.closures, candles, d, segments, k - 1);
    assert SegmentIn(candles, d, segments, k - 1) && SegmentIn(candles, d, segments, k);
    assert Exact(m, m.closures[k - 1]);
  }

  /** Slots from the first candle to the end of segment k: its candles and the closures before it. */
  lemma {:induction false} SlotsUpTo(m: Manifest, candles: seq<Candle>, segments: seq<Segment>, k: nat)
    requires WellFormed(m) && Segmented(m.closures, candles, m.timeframe.Duration(), segments) && k < |segments|
    ensures SegmentIn(candles, m.timeframe.Duration(), segments, k)
    ensures candles[segments[k].end - 1].openTime - candles[0].openTime
            == m.timeframe.Duration() * (segments[k].end - 1 + Unavailable(m.closures[..k]))
  {
    var d := m.timeframe.Duration();
    assert SegmentIn(candles, d, segments, k);
    UnbrokenIsEven(candles, d, segments[k].start, segments[k].end, segments[k].end - 1);
    if k == 0 {
    } else {
      SlotsUpTo(m, candles, segments, k - 1);
      ClosureSlots(m, candles, segments, k);
      hide Segmented, WellFormed, SegmentIn, Timeframe.Duration;
      UnavailableExtends(m.closures, k);
      AddSlots(d, segments[k - 1].end - 1 + Unavailable(m.closures[..k - 1]), m.closures[k - 1].unavailable,
               segments[k].end - 1 - segments[k].start);
    }
  }

  lemma AddSlots(d: int, before: int, unavailable: int, inside: int)
    ensures d * before + d + unavailable * d + d * inside == d * (before + 1 + unavailable + inside)
  {
  }

  /** Every slot between the first and the last candle is a candle or a declared unavailable slot. */
  lemma SlotsAreConserved(m: Manifest, candles: seq<Candle>, segments: seq<Segment>)
    requires WellFormed(m) && Segmented(m.closures, candles, m.timeframe.Duration(), segments)
    ensures candles != []
    ensures (candles[|candles| - 1].openTime - candles[0].openTime) / m.timeframe.Duration() + 1
            == |candles| + Unavailable(m.closures)
    ensures (candles[|candles| - 1].openTime - candles[0].openTime) % m.timeframe.Duration() == 0
  {
    var d := m.timeframe.Duration();
    SlotsUpTo(m, candles, segments, |segments| - 1);
    assert m.closures[..|m.closures|] == m.closures;
    var slots := |candles| - 1 + Unavailable(m.closures);
    assert d * slots == slots * d;
    MultipleHasNoRemainder(slots, d);
  }

  // ---------------------------------------------------------------- uniqueness

  /** The closure at a boundary is a real gap, so no longer segment would be unbroken. */
  lemma BoundaryIsGap(closures: seq<ValidClosure>, candles: seq<Candle>, d: int, segments: seq<Segment>, k: nat)
    requires Segmented(closures, candles, d, segments) && k < |closures|
    ensures 0 < segments[k].end < |candles| && GapAt(candles, d, segments[k].end)
  {
    assert ResumesAt(closures, candles, d, segments, k);
  }

  lemma EndsAgree(closures: seq<ValidClosure>, candles: seq<Candle>, d: int, a: seq<Segment>, b: seq<Segment>, k: nat)
    requires Segmented(closures, candles, d, a) && Segmented(closures, candles, d, b)
    requires k < |a| && a[k].start == b[k].start
    ensures a[k].end <= b[k].end
  {
    assert SegmentIn(candles, d, a, k) && SegmentIn(candles, d, b, k);
    if b[k].end < a[k].end {
      if k < |closures| { BoundaryIsGap(closures, candles, d, b, k); }
    }
  }

  lemma {:induction false} SegmentsAgree(
    closures: seq<ValidClosure>, candles: seq<Candle>, d: int, a: seq<Segment>, b: seq<Segment>, k: nat)
    requires Segmented(closures, candles, d, a) && Segmented(closures, candles, d, b) && k < |a|
    ensures a[k] == b[k]
  {
    if k > 0 {
      SegmentsAgree(closures, candles, d, a, b, k - 1);
      assert ResumesAt(closures, candles, d, a, k - 1) && ResumesAt(closures, candles, d, b, k - 1);
    }
    EndsAgree(closures, candles, d, a, b, k);
    EndsAgree(closures, candles, d, b, a, k);
    assert SegmentIn(candles, d, a, k) && SegmentIn(candles, d, b, k);
  }

  /** A segmentation, if there is one, is the only one: segments are maximal. */
  lemma SegmentationIsUnique(
    closures: seq<ValidClosure>, candles: seq<Candle>, d: int, a: seq<Segment>, b: seq<Segment>)
    requires Segmented(closures, candles, d, a) && Segmented(closures, candles, d, b)
    ensures a == b
  {
    forall k | 0 <= k < |a| ensures a[k] == b[k] {
      SegmentsAgree(closures, candles, d, a, b, k);
    }
  }

  // ---------------------------------------------------------------- the manifest's own checks

  ghost predicate ManifestAccepts(segments: seq<Segment>) {
    && segments != []
    && (forall k :: 0 <= k < |segments| ==> segments[k].number == k + 1)
    && segments[0].start == 0 && segments[0].precedingClosure.None?
    && (forall k :: 0 < k < |segments| ==> FollowsIn(segments, k))
    && (forall i, j :: 0 < i < j < |segments| ==> segments[i].precedingClosure != segments[j].precedingClosure)
  }

  ghost predicate FollowsIn(segments: seq<Segment>, k: int)
    requires 0 < k < |segments|
  {
    && segments[k].start == segments[k - 1].end
    && segments[k].firstOpen > segments[k - 1].lastOpen
    && segments[k].precedingClosure.Some?
  }

  lemma NumbersAreConsecutive(segments: seq<Segment>, candles: seq<Candle>, d: int)
    requires forall k :: 0 <= k < |segments| ==> SegmentIn(candles, d, segments, k)
    ensures forall k :: 0 <= k < |segments| ==> segments[k].number == k + 1
  {
    forall k | 0 <= k < |segments| ensures segments[k].number == k + 1 {
      assert SegmentIn(candles, d, segments, k);
    }
  }

  /** The segment manifest built from a segmentation passes every check of its constructor. */
  lemma SegmentationIsAccepted(m: Manifest, candles: seq<Candle>, segments: seq<Segment>)
    requires WellFormed(m) && Segmented(m.closures, candles, m.timeframe.Duration(), segments) && Increasing(candles)
    ensures ManifestAccepts(segments)
  {
    var d := m.timeframe.Duration();
    NumbersAreConsecutive(segments, candles, d);
    forall k | 0 < k < |segments|
      ensures FollowsIn(segments, k) && segments[k].precedingClosure == Some(m.closures[k - 1].id)
    {
      assert ResumesAt(m.closures, candles, d, segments, k - 1);
      assert SegmentIn(candles, d, segments, k - 1) && SegmentIn(candles, d, segments, k);
    }
  }

  // ---------------------------------------------------------------- numbering candles

  function Starts(segments: seq<Segment>, k: nat): set<int>
    requires k < |segments|
  {
    if k == 0 then {} else Starts(segments, k - 1) + {segments[k].start}
  }

  /** `boundary_indices` as the set the engine keeps. */
  function Boundaries(segments: seq<Segment>): set<int>
    requires segments != []
  {
    Starts(segments, |segments| - 1)
  }

  ghost predicate Ordered(segments: seq<Segment>) {
    && segments != [] && segments[0].start == 0
    && (forall i, j :: 0 <= i < j < |segments| ==> segments[i].end <= segments[j].start)
    && (forall k :: 0 <= k < |segments| ==> segments[k].start < segments[k].end && segments[k].number == k + 1)
  }

  lemma {:induction false} StartsAreCounted(segments: seq<Segment>, k: nat)
    requires Ordered(segments) && k < |segments|
    ensures |Starts(segments, k)| == k
    ensures forall b :: b in Starts(segments, k) ==> b <= segments[k].start
  {
    if k > 0 {
      StartsAreCounted(segments, k - 1);
      assert segments[k - 1].end <= segments[k].start;
      assert segments[k].start !in Starts(segments, k - 1);
    }
  }

  lemma {:induction false} StartsSplit(segments: seq<Segment>, k: nat, n: nat)
    requires Ordered(segments) && k <= n < |segments|
    ensures Starts(segments, k) <= Starts(segments, n)
    ensures forall b :: b in Starts(segments, n) && b !in Starts(segments, k) ==> b >= segments[k].end
    decreases n
  {
    if k < n {
      StartsSplit(segments, k, n - 1);
      assert segments[k].end <= segments[n].start;
    }
  }

  /** One-based segment number of a candle inside segment k is k + 1, and that is the engine's count. */
  lemma NumberIsCount(segments: seq<Segment>, k: nat, index: int)
    requires Ordered(segments) && k < |segments| && segments[k].start <= index < segments[k].end
    ensures EngineTheorems.SegmentCount(Boundaries(segments), index) == segments[k].number == k + 1
  {
    StartsAreCounted(segments, k);
    StartsSplit(segments, k, |segments| - 1);
    var crossed := set b | b in Boundaries(segments) && b <= index;
    assert crossed == Starts(segments, k);
  }

  datatype IndexError = NegativeIndex | OutsideEvidence

  /** `segment_number_for_index`: the engine's own count, on every index the segments cover. */
  method SegmentNumberForIndex(segments: seq<Segment>, index: int) returns (r: Result<int, IndexError>)
    requires Ordered(segments)
    ensures index < 0 ==> r == Err(NegativeIndex)
    ensures index >= 0 && r.Ok? ==> r.value == EngineTheorems.SegmentCount(Boundaries(segments), index)
    ensures index >= 0 ==> (r.Ok? <==> exists k :: 0 <= k < |segments| && segments[k].start <= index < segments[k].end)
  {
    if index < 0 { return Err(NegativeIndex); }
    for k := 0 to |segments|
      invariant forall j :: 0 <= j < k ==> !(segments[j].start <= index < segments[j].end)
    {
      if segments[k].start <= index < segments[k].end {
        NumberIsCount(segments, k, index);
        return Ok(segments[k].number);
      }
    }
    return Err(OutsideEvidence);
  }

  lemma {:induction false} ChainIsOrdered(
    closures: seq<ValidClosure>, candles: seq<Candle>, d: int, segments: seq<Segment>, i: nat, j: nat)
    requires Segmented(closures, candles, d, segments) && i < j < |segments|
    ensures segments[i].end <= segments[j].start
    decreases j
  {
    assert ResumesAt(closures, candles, d, segments, j - 1);
    if i < j - 1 {
      ChainIsOrdered(closures, candles, d, segments, i, j - 1);
      assert SegmentIn(candles, d, segments, j - 1);
    }
  }

  lemma SegmentationIsOrdered(closures: seq<ValidClosure>, candles: seq<Candle>, d: int, segments: seq<Segment>)
    requires Segmented(closures, candles, d, segments)
    ensures Ordered(segments)
  {
    forall i, j | 0 <= i < j < |segments| ensures segments[i].end <= segments[j].start {
      ChainIsOrdered(closures, candles, d, segments, i, j);
    }
    forall k | 0 <= k < |segments| ensures segments[k].start < segments[k].end && segments[k].number == k + 1 {
      assert SegmentIn(candles, d, segments, k);
    }
  }

  lemma {:induction false} CoveredUpTo(
    closures: seq<ValidClosure>, candles: seq<Candle>, d: int, segments: seq<Segment>, k: nat, index: int)
    requires Segmented(closures, candles, d, segments) && k < |segments| && 0 <= index < segments[k].end
    ensures exists j :: 0 <= j < |segments| && segments[j].start <= index < segments[j].end
  {
    if index < segments[k].start {
      assert ResumesAt(closures, candles, d, segments, k - 1);
      CoveredUpTo(closures, candles, d, segments, k - 1, index);
    }
  }

  /** In a run over a segmented dataset, a completed trade enters and exits in one and the same segment. */
  lemma TradesStayInTheirSegment(env: Engine.Env, strategy: Engine.Strategy, k: nat, s: Engine.State,
                                 closures: seq<ValidClosure>, d: int, segments: seq<Segment>, i: nat, a: nat, b: nat)
    requires EngineTheorems.Reached(env, strategy, k, s)
    requires Segmented(closures, env.candles, d, segments) && env.boundaries == Boundaries(segments)
    requires Trades.Derive(s.orders, s.fills).Ok? && i < |Trades.Derive(s.orders, s.fills).value.trades|
    requires a < |segments| && b < |segments|
    requires segments[a].start <= Trades.Derive(s.orders, s.fills).value.trades[i].entryIndex < segments[a].end
    requires segments[b].start <= Trades.Derive(s.orders, s.fills).value.trades[i].exitIndex < segments[b].end
    ensures a == b
  {
    hide Trades.Derive, Engine.Run, EngineSteps.ValidEnv;
    var trade := Trades.Derive(s.orders, s.fills).value.trades[i];
    EngineTheorems.NothingSpansASegment(env, strategy, k, s);
    SegmentationIsOrdered(closures, env.candles, d, segments);
    NumberIsCount(segments, a, trade.entryIndex);
    NumberIsCount(segments, b, trade.exitIndex);
  }
}
