/** The rows of the feature matrix: computed segment by segment, and what they can and cannot see. */
module FeatureMatrix {
  import opened Wrappers
  import opened Domain
  import opened Segments
  import opened Features
  import SegmentFacts
  import Closures

  // ---------------------------------------------------------------- input checks

  predicate SoundRow(c: seq<Candle>, k: int)
    requires 0 <= k < |c|
  {
    && c[k].completed && c[k].instrument == c[0].instrument && c[k].timeframe == c[0].timeframe
    && c[k].close > 0.0 && c[k].volume > 0.0
    && c[k].high >= Max(c[k].open, c[k].close) && c[k].low <= Min(c[k].open, c[k].close)
    && (k > 0 ==> c[k].openTime > c[k - 1].openTime)
  }

  ghost predicate Usable(c: seq<Candle>) {
    forall k :: 0 <= k < |c| ==> SoundRow(c, k)
  }

  method ValidateCandles(c: seq<Candle>) returns (error: Option<FeatureError>)
    ensures error.None? <==> Usable(c)
  {
    var prior: Option<int> := None;
    for k := 0 to |c|
      invariant forall j :: 0 <= j < k ==> SoundRow(c, j)
      invariant prior == if k == 0 then None else Some(c[k - 1].openTime)
    {
      ghost var sound := SoundRow(c, k);
      if !c[k].completed { return Some(Incomplete); }
      if c[k].instrument != c[0].instrument || c[k].timeframe != c[0].timeframe { return Some(MixedSeries); }
      if prior.Some? && c[k].openTime <= prior.value { return Some(FeatureError.OutOfOrder); }
      prior := Some(c[k].openTime);
      if c[k].close <= 0.0 || c[k].volume <= 0.0 { return Some(NonPositive); }
      if c[k].high < Max(c[k].open, c[k].close) || c[k].low > Min(c[k].open, c[k].close) {
        return Some(FeatureError.BadGeometry);
      }
    }
    return None;
  }

  // ---------------------------------------------------------------- rows

  function RowsAt(f: Maths, c: seq<Candle>, i: nat): seq<Row>
    requires LOOKBACK <= i < |c|
  {
    var values := ComputeValues(f, c, i);
    if values.None? then [] else [Row(i, c[i].openTime, values.value)]
  }

  /** The rows of one window up to candle `n`: the first forty-two candles only warm up. */
  function WindowRows(f: Maths, c: seq<Candle>, start: nat, n: nat): seq<Row>
    requires n <= |c|
    decreases n
  {
    if n <= start + LOOKBACK then [] else WindowRows(f, c, start, n - 1) + RowsAt(f, c, n - 1)
  }

  function Clipped(end: nat, length: nat): nat {
    if end <= length then end else length
  }

  /** The rows of the first `k` segments. */
  function SegmentRows(f: Maths, c: seq<Candle>, segments: seq<Segment>, k: nat): seq<Row>
    requires k <= |segments|
    decreases k
  {
    if k == 0 then []
    else
      var s := segments[k - 1];
      SegmentRows(f, c, segments, k - 1) + if s.start < |c| then WindowRows(f, c, s.start, Clipped(s.end, |c|)) else []
  }

  function AllRows(f: Maths, c: seq<Candle>, segments: Option<seq<Segment>>): seq<Row> {
    if segments.None? then WindowRows(f, c, 0, |c|) else SegmentRows(f, c, segments.value, |segments.value|)
  }

  predicate Covered(c: seq<Candle>, segments: seq<Segment>)
    requires segments != []
  {
    segments[0].start == 0 && |c| <= segments[|segments| - 1].end
  }

  lemma SliceOfSlice<T>(c: seq<T>, start: nat, end: nat, a: nat, b: nat)
    requires start <= a <= b <= end <= |c|
    ensures c[start..end][a - start..b - start] == c[a..b]
  {
    var s := c[start..end];
    var t := s[a - start..b - start];
    forall x | 0 <= x < b - a ensures t[x] == c[a..b][x] {
      assert t[x] == s[a - start + x];
    }
  }

  /** A row computed on a slice is the row of the whole sequence. */
  lemma SliceRow(f: Maths, c: seq<Candle>, start: nat, end: nat, i: nat)
    requires start + LOOKBACK <= i < end <= |c|
    ensures ComputeValues(f, c[start..end], i - start) == ComputeValues(f, c, i)
  {
    hide ComputeValues;
    SliceOfSlice(c, start, end, i - LOOKBACK, i + 1);
    RowsAreLocal(f, c[start..end], i - start, c, i);
  }

  method ComputeWindow(f: Maths, c: seq<Candle>, start: nat, end: nat) returns (rows: seq<Row>)
    requires start <= end <= |c|
    ensures rows == WindowRows(f, c, start, end)
  {
    hide ComputeValues;
    var local := c[start..end];
    rows := [];
    var localIndex := LOOKBACK;
    while localIndex < |local|
      invariant localIndex >= LOOKBACK
      invariant rows == WindowRows(f, c, start, if localIndex <= |local| then start + localIndex else end)
    {
      SliceRow(f, c, start, end, start + localIndex);
      var values := ComputeValues(f, local, localIndex);
      if values.Some? {
        rows := rows + [Row(start + localIndex, c[start + localIndex].openTime, values.value)];
      }
      localIndex := localIndex + 1;
    }
  }

  method Compute(f: Maths, c: seq<Candle>, segments: Option<seq<Segment>>) returns (r: Result<seq<Row>, FeatureError>)
    requires segments.Some? ==> SegmentFacts.Ordered(segments.value)
    ensures r.Ok? <==> Usable(c) && (segments.Some? ==> Covered(c, segments.value))
    ensures r.Ok? ==> r.value == AllRows(f, c, segments)
  {
    hide WindowRows, Usable;
    var error := ValidateCandles(c);
    if error.Some? { return Err(error.value); }
    if segments.None? {
      var all := ComputeWindow(f, c, 0, |c|);
      return Ok(all);
    }
    if !Covered(c, segments.value) { return Err(NotCovered); }
    var rows := [];
    for k := 0 to |segments.value|
      invariant rows == SegmentRows(f, c, segments.value, k)
    {
      var s := segments.value[k];
      if s.start < |c| {
        var part := ComputeWindow(f, c, s.start, Clipped(s.end, |c|));
        rows := rows + part;
      }
    }
    return Ok(rows);
  }

  // ---------------------------------------------------------------- which rows there are

  /** A row stands for an eligible candle of a segment: all of its forty-three candles lie inside it. */
  ghost predicate Belongs(f: Maths, c: seq<Candle>, start: nat, end: nat, row: Row) {
    && start + LOOKBACK <= row.index < end <= |c|
    && row.openTime == c[row.index].openTime
    && ComputeValues(f, c[row.index - LOOKBACK..row.index + 1], LOOKBACK) == Some(row.values)
  }

  lemma WindowAlone(f: Maths, c: seq<Candle>, i: nat)
    requires LOOKBACK <= i < |c|
    ensures ComputeValues(f, c[i - LOOKBACK..i + 1], LOOKBACK) == ComputeValues(f, c, i)
  {
    hide ComputeValues;
    SliceRow(f, c, i - LOOKBACK, i + 1, i);
  }

  /** The last candle of a window gives its row alone, if it gives one. */
  lemma LastRow(f: Maths, c: seq<Candle>, start: nat, n: nat)
    requires start + LOOKBACK < n <= |c|
    ensures |RowsAt(f, c, n - 1)| <= 1
    ensures forall row :: row in RowsAt(f, c, n - 1) <==> Belongs(f, c, start, n, row) && row.index == n - 1
  {
    hide ComputeValues;
    WindowAlone(f, c, n - 1);
  }

  lemma BelongsGrows(f: Maths, c: seq<Candle>, start: nat, n: nat, row: Row)
    requires start + LOOKBACK < n <= |c|
    ensures Belongs(f, c, start, n - 1, row) <==> Belongs(f, c, start, n, row) && row.index != n - 1
  {
    hide ComputeValues;
  }

  ghost predicate Ascending(rows: seq<Row>) {
    forall a, b :: 0 <= a < b < |rows| ==> rows[a].index < rows[b].index
  }

  /** The rows of a window are exactly its eligible candles, in order. */
  lemma {:induction false} WindowRowsAre(f: Maths, c: seq<Candle>, start: nat, n: nat)
    requires start <= n <= |c|
    ensures Ascending(WindowRows(f, c, start, n))
    ensures forall row :: row in WindowRows(f, c, start, n) <==> Belongs(f, c, start, n, row)
    decreases n
  {
    hide ComputeValues;
    if n > start + LOOKBACK {
      WindowRowsAre(f, c, start, n - 1);
      LastRow(f, c, start, n);
      hide Belongs, RowsAt;
      forall row ensures row in WindowRows(f, c, start, n) <==> Belongs(f, c, start, n, row) {
        BelongsGrows(f, c, start, n, row);
      }
      var before := WindowRows(f, c, start, n - 1);
      forall a | 0 <= a < |before| ensures before[a].index < n - 1 {
        assert before[a] in before;
      }
    }
  }

  ghost predicate BelongsIn(f: Maths, c: seq<Candle>, segments: seq<Segment>, j: int, row: Row)
    requires 0 <= j < |segments|
  {
    Belongs(f, c, segments[j].start, Clipped(segments[j].end, |c|), row)
  }

  /** The rows of the matrix are exactly the eligible candles of the segments, in order. */
  lemma {:induction false} SegmentRowsAre(f: Maths, c: seq<Candle>, segments: seq<Segment>, k: nat)
    requires SegmentFacts.Ordered(segments) && k <= |segments|
    ensures Ascending(SegmentRows(f, c, segments, k))
    ensures forall row :: row in SegmentRows(f, c, segments, k) <==>
                          exists j :: 0 <= j < k && BelongsIn(f, c, segments, j, row)
    decreases k
  {
    hide ComputeValues, WindowRows;
    if k > 0 {
      SegmentRowsAre(f, c, segments, k - 1);
      var s := segments[k - 1];
      var front, rows := SegmentRows(f, c, segments, k - 1), SegmentRows(f, c, segments, k);
      if s.start < |c| {
        var part := WindowRows(f, c, s.start, Clipped(s.end, |c|));
        WindowRowsAre(f, c, s.start, Clipped(s.end, |c|));
        assert rows == front + part;
        RowsAppend(f, c, segments, k, front, part);
      } else {
        assert rows == front;
        var last := k - 1;
        assert forall row :: !BelongsIn(f, c, segments, last, row);
      }
    }
  }

  lemma RowsAppend(f: Maths, c: seq<Candle>, segments: seq<Segment>, k: nat, front: seq<Row>, part: seq<Row>)
    requires SegmentFacts.Ordered(segments) && 0 < k <= |segments|
    requires Ascending(front) && Ascending(part)
    requires forall row :: row in front <==> exists j :: 0 <= j < k - 1 && BelongsIn(f, c, segments, j, row)
    requires forall row :: row in part <==> BelongsIn(f, c, segments, k - 1, row)
    ensures Ascending(front + part)
    ensures forall row :: row in front + part <==> exists j :: 0 <= j < k && BelongsIn(f, c, segments, j, row)
  {
    hide ComputeValues;
    forall a, b | 0 <= a < |front| && 0 <= b < |part| ensures front[a].index < part[b].index {
      assert front[a] in front && part[b] in part;
      var j :| 0 <= j < k - 1 && BelongsIn(f, c, segments, j, front[a]);
      assert segments[j].end <= segments[k - 1].start;
    }
    hide Belongs, BelongsIn;
    forall row ensures row in front + part <==> exists j :: 0 <= j < k && BelongsIn(f, c, segments, j, row) {
      if j :| 0 <= j < k && BelongsIn(f, c, segments, j, row) {
        if j == k - 1 { assert row in part; } else { assert row in front; }
      }
    }
  }

  // ---------------------------------------------------------------- no look-ahead, no outage

  lemma {:induction false} WindowReadsThePast(f: Maths, c: seq<Candle>, k: nat, start: nat, n: nat)
    requires n <= k <= |c|
    ensures WindowRows(f, c[..k], start, n) == WindowRows(f, c, start, n)
    decreases n
  {
    hide ComputeValues;
    if n > start + LOOKBACK {
      WindowReadsThePast(f, c, k, start, n - 1);
      var i := n - 1;
      assert c[..k] == c[0..k];
      SliceOfSlice(c, 0, k, i - LOOKBACK, i + 1);
      RowsAreLocal(f, c[..k], i, c, i);
    }
  }

  /** The rows of an index range. */
  ghost predicate RowsBelow(shorter: seq<Row>, whole: seq<Row>, k: nat) {
    && (forall row :: row in shorter <==> row in whole && row.index < k)
    && Ascending(shorter) && Ascending(whole)
  }

  lemma PrefixBelongs(f: Maths, c: seq<Candle>, k: nat, start: nat, end: nat, row: Row)
    requires k <= |c|
    ensures Belongs(f, c[..k], start, Clipped(end, k), row)
            <==> Belongs(f, c, start, Clipped(end, |c|), row) && row.index < k
  {
    hide ComputeValues;
    if LOOKBACK <= row.index < k {
      assert c[..k][row.index - LOOKBACK..row.index + 1] == c[row.index - LOOKBACK..row.index + 1];
    }
  }

  /** Point in time: the matrix of any candle prefix is exactly the rows of the full matrix below the cut. */
  lemma MatrixReadsThePast(f: Maths, c: seq<Candle>, segments: Option<seq<Segment>>, k: nat)
    requires k <= |c| && (segments.Some? ==> SegmentFacts.Ordered(segments.value))
    ensures RowsBelow(AllRows(f, c[..k], segments), AllRows(f, c, segments), k)
  {
    hide ComputeValues, WindowRows, SegmentRows, Belongs;
    if segments.None? {
      WindowRowsAre(f, c[..k], 0, k);
      WindowRowsAre(f, c, 0, |c|);
      forall row ensures Belongs(f, c[..k], 0, k, row) <==> Belongs(f, c, 0, |c|, row) && row.index < k {
        PrefixBelongs(f, c, k, 0, |c|, row);
      }
    } else {
      var s := segments.value;
      SegmentRowsAre(f, c[..k], s, |s|);
      SegmentRowsAre(f, c, s, |s|);
      forall row, j | 0 <= j < |s|
        ensures BelongsIn(f, c[..k], s, j, row) <==> BelongsIn(f, c, s, j, row) && row.index < k
      {
        PrefixBelongs(f, c, k, s[j].start, s[j].end, row);
      }
    }
  }

  /** Any two candles of an unbroken range are as many slots apart as their indices. */
  lemma EvenlySpaced(c: seq<Candle>, d: int, start: int, end: int, i: int, t: nat)
    requires 0 <= start <= i - t && i < end <= |c| && Unbroken(c, d, start, end)
    ensures c[i].openTime - c[i - t].openTime == t * d
  {
    SegmentFacts.UnbrokenIsEven(c, d, start, end, i);
    SegmentFacts.UnbrokenIsEven(c, d, start, end, i - t);
    assert d * (i - start) - d * (i - t - start) == t * d;
  }

  /** Outage safety: over a segmented dataset, the forty-three candles behind every row are consecutive slots. */
  lemma RowsSpanNoOutage(
    f: Maths, c: seq<Candle>, closures: seq<Closures.ValidClosure>, d: int, segments: seq<Segment>, row: Row,
    t: nat)
    requires Segmented(closures, c, d, segments)
    requires row in AllRows(f, c, Some(segments)) && t <= LOOKBACK
    ensures LOOKBACK <= row.index < |c|
    ensures row.openTime == c[row.index].openTime && row.openTime - c[row.index - t].openTime == t * d
  {
    hide ComputeValues, SegmentRows;
    SegmentFacts.SegmentationIsOrdered(closures, c, d, segments);
    SegmentRowsAre(f, c, segments, |segments|);
    var j :| 0 <= j < |segments| && BelongsIn(f, c, segments, j, row);
    assert SegmentIn(c, d, segments, j);
    EvenlySpaced(c, d, segments[j].start, segments[j].end, row.index, t);
  }
}
