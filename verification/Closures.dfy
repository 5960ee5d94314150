/** Declared exchange closures: ordered, separate outages whose slot counts are exact. */
module Closures {
  import opened Wrappers
  import opened Domain

  datatype PartialCandle = PartialCandle(
    openTime: int,
    actualClose: int,
    expectedClose: int,
    rowHash: string,
    reason: string)
  {
    predicate Valid() {
      openTime < actualClose < expectedClose
    }
  }

  datatype Closure = Closure(
    id: string,
    gapStart: int,
    resumed: int,
    unavailable: int,
    missingStart: int,
    missingCount: int,
    partialCandle: PartialCandle)
  {
    predicate Valid() {
      resumed > gapStart && unavailable >= 1 && missingCount >= 0 && partialCandle.Valid()
    }
  }

  /** Nothing but white space. */
  predicate Blank(s: string) {
    forall i | 0 <= i < |s| :: s[i] in " \t\n\r"
  }

  predicate LowerOrDigit(c: char) {
    'a' <= c <= 'z' || '0' <= c <= '9'
  }

  /**
   The format that segments and exclusions demand of a closure identity they carry. A closure itself only
   asks for a non-blank one.
   */
  predicate WellNamed(id: string) {
    && 1 <= |id| <= 128
    && LowerOrDigit(id[0])
    && forall i | 0 <= i < |id| :: LowerOrDigit(id[i]) || id[i] == '.' || id[i] == '_' || id[i] == '-'
  }

  /** Every declared closure can be carried by a segment and by an exclusion. */
  ghost predicate AllWellNamed(closures: seq<ValidClosure>) {
    forall k :: 0 <= k < |closures| ==> WellNamed(closures[k].id)
  }

  type ValidClosure = c: Closure | c.Valid()
    witness Closure("c", 0, 2, 1, 1, 0, PartialCandle(0, 1, 2, "", ""))

  const SCHEMA := "exchange-closure-manifest-v3"

  datatype Manifest = Manifest(
    schema: string,
    provider: string,
    instrument: string,
    timeframe: Timeframe,
    startTime: int,
    endTime: int,
    closures: seq<ValidClosure>)

  datatype ManifestError =
    | UnsupportedSchema | BlankProvider | EmptyWindow | NoClosure | DuplicateId | DuplicatePartial | DuplicateRow
    | Unordered | Misaligned | OutsideWindow
    | PartialMismatch | ExpectedCloseMismatch | MissingStartMismatch | UnavailableMismatch | MissingMismatch
    | CountsInconsistent | OverlapOrTouch

  /** One closure is exact: aligned, inside the window, and its counts are the slots it spans. */
  ghost predicate Exact(m: Manifest, c: Closure) {
    var duration := m.timeframe.Duration();
    && c.gapStart % duration == 0
    && m.startTime <= c.gapStart && c.resumed <= m.endTime
    && c.resumed == c.gapStart + c.unavailable * duration
    && c.missingStart == c.gapStart + duration
    && c.missingCount == c.unavailable - 1
    && c.partialCandle.openTime == c.gapStart
    && c.partialCandle.expectedClose == c.gapStart + duration - MILLISECOND
  }

  ghost predicate DistinctKeys(closures: seq<ValidClosure>) {
    forall i, j :: 0 <= i < j < |closures| ==>
      && closures[i].id != closures[j].id
      && closures[i].partialCandle.openTime != closures[j].partialCandle.openTime
      && closures[i].partialCandle.rowHash != closures[j].partialCandle.rowHash
  }

  /** Any two closures are separated by at least one open slot. */
  ghost predicate Separate(closures: seq<ValidClosure>) {
    forall i, j :: 0 <= i < j < |closures| ==> closures[i].resumed < closures[j].gapStart
  }

  ghost predicate WellFormed(m: Manifest) {
    && m.schema == SCHEMA && !Blank(m.provider)
    && m.startTime < m.endTime
    && m.closures != []
    && DistinctKeys(m.closures)
    && Separate(m.closures)
    && forall i :: 0 <= i < |m.closures| ==> Exact(m, m.closures[i])
  }

  function CheckClosure(m: Manifest, c: ValidClosure): Option<ManifestError> {
    var duration := m.timeframe.Duration();
    if c.gapStart % duration != 0 || c.missingStart % duration != 0 || c.resumed % duration != 0 then Some(Misaligned)
    else if !(m.startTime <= c.gapStart < c.resumed <= m.endTime) then Some(OutsideWindow)
    else if c.partialCandle.openTime != c.gapStart then Some(PartialMismatch)
    else if c.partialCandle.expectedClose != c.gapStart + duration - MILLISECOND then Some(ExpectedCloseMismatch)
    else if c.missingStart != c.gapStart + duration then Some(MissingStartMismatch)
    else if (c.resumed - c.gapStart) / duration != c.unavailable then Some(UnavailableMismatch)
    else if (c.resumed - c.missingStart) / duration != c.missingCount then Some(MissingMismatch)
    else if c.unavailable != c.missingCount + 1 then Some(CountsInconsistent)
    else None
  }

  lemma ExactMultiple(x: int, d: int)
    requires d > 0 && x % d == 0
    ensures x == (x / d) * d
  {
  }

  lemma MultiplesSubtract(x: int, y: int, d: int)
    requires d > 0 && x % d == 0 && y % d == 0
    ensures (x - y) % d == 0
  {
    ExactMultiple(x, d);
    ExactMultiple(y, d);
    var k := x / d - y / d;
    assert x - y == k * d;
    MultipleHasNoRemainder(k, d);
  }

  lemma MultipleHasNoRemainder(k: int, d: int)
    requires d > 0
    ensures (k * d) % d == 0 && (k * d) / d == k
  {
    QuotientIsUnique(k * d, k, (k * d) / d, d);
  }

  lemma QuotientIsUnique(x: int, k: int, q: int, d: int)
    requires d > 0 && x == k * d && x == q * d + x % d && 0 <= x % d < d
    ensures x % d == 0 && q == k
  {
    var r := x % d;
    assert r == (k - q) * d;
    if k - q >= 1 { ProductAtLeast(k - q, 1, d); }
    if k - q <= -1 { ProductAtLeast(q - k, 1, d); }
  }

  lemma ProductAtLeast(x: int, y: int, d: int)
    requires x >= y && d > 0
    ensures x * d >= y * d
  {
  }

  /** The per-closure checks accept exactly the exact closures. */
  lemma CheckClosureIsExact(m: Manifest, c: ValidClosure)
    ensures CheckClosure(m, c).None? <==> Exact(m, c)
  {
    var d := m.timeframe.Duration();
    if CheckClosure(m, c).None? {
      MultiplesSubtract(c.resumed, c.gapStart, d);
      ExactMultiple(c.resumed - c.gapStart, d);
    }
    if Exact(m, c) {
      var g := c.gapStart / d;
      ExactMultiple(c.gapStart, d);
      SumOfMultiples(g, 1, d);
      SumOfMultiples(g, c.unavailable, d);
      MultipleHasNoRemainder(c.unavailable, d);
      MultipleHasNoRemainder(c.missingCount, d);
      assert c.resumed - c.missingStart == c.missingCount * d by { assert c.missingCount * d == c.unavailable * d - d; }
      ProductAtLeast(c.unavailable, 1, d);
    }
  }

  lemma SumOfMultiples(x: int, y: int, d: int)
    requires d > 0
    ensures (x * d + y * d) % d == 0
  {
    assert x * d + y * d == (x + y) * d;
    MultipleHasNoRemainder(x + y, d);
  }

  predicate HasDuplicateId(closures: seq<ValidClosure>) {
    exists i, j | 0 <= i < j < |closures| :: closures[i].id == closures[j].id
  }

  predicate HasDuplicatePartial(closures: seq<ValidClosure>) {
    exists i, j | 0 <= i < j < |closures| :: closures[i].partialCandle.openTime == closures[j].partialCandle.openTime
  }

  predicate HasDuplicateRow(closures: seq<ValidClosure>) {
    exists i, j | 0 <= i < j < |closures| :: closures[i].partialCandle.rowHash == closures[j].partialCandle.rowHash
  }

  predicate StartsUnordered(closures: seq<ValidClosure>) {
    exists i, j | 0 <= i < j < |closures| :: closures[i].gapStart > closures[j].gapStart
  }

  lemma KeysAreDistinct(closures: seq<ValidClosure>)
    ensures DistinctKeys(closures) <==>
              !HasDuplicateId(closures) && !HasDuplicatePartial(closures) && !HasDuplicateRow(closures)
  {
  }

  lemma NoneIsSeparate(closures: seq<ValidClosure>)
    ensures Separate(closures[..0])
  {
  }

  /** Comparing neighbours is enough: each closure must start after the one before it has resumed. */
  lemma SeparateExtends(closures: seq<ValidClosure>, i: nat)
    requires i < |closures| && Separate(closures[..i])
    ensures i == 0 || closures[i - 1].resumed < closures[i].gapStart ==> Separate(closures[..i + 1])
    ensures i > 0 && closures[i].gapStart <= closures[i - 1].resumed ==> !Separate(closures)
  {
    var front := closures[..i];
    var longer := closures[..i + 1];
    assert forall k :: 0 <= k < i ==> longer[k] == front[k];
    if i > 0 {
      var before := closures[i - 1];
      assert before == front[i - 1] && before.gapStart < before.resumed;
    }
  }

  lemma SeparateIsOrdered(closures: seq<ValidClosure>)
    ensures Separate(closures) ==> !StartsUnordered(closures)
  {
  }

  /** `ExchangeClosureManifest.__post_init__`: adjacent checks are enough for pairwise separation. */
  method CheckManifest(m: Manifest) returns (error: Option<ManifestError>)
    ensures error.None? <==> WellFormed(m)
  {
    hide Blank, HasDuplicateId, HasDuplicatePartial, HasDuplicateRow, StartsUnordered, DistinctKeys, Separate, Exact,
         CheckClosure;
    KeysAreDistinct(m.closures);
    if m.schema != SCHEMA { return Some(UnsupportedSchema); }
    if Blank(m.provider) { return Some(BlankProvider); }
    if m.endTime <= m.startTime { return Some(EmptyWindow); }
    if m.closures == [] { return Some(NoClosure); }
    if HasDuplicateId(m.closures) { return Some(DuplicateId); }
    if HasDuplicatePartial(m.closures) { return Some(DuplicatePartial); }
    if HasDuplicateRow(m.closures) { return Some(DuplicateRow); }
    if StartsUnordered(m.closures) {
      SeparateIsOrdered(m.closures);
      return Some(Unordered);
    }
    NoneIsSeparate(m.closures);
    var previous: Option<ValidClosure> := None;
    for i := 0 to |m.closures|
      invariant previous == if i == 0 then None else Some(m.closures[i - 1])
      invariant forall k :: 0 <= k < i ==> Exact(m, m.closures[k])
      invariant Separate(m.closures[..i])
    {
      var closure := m.closures[i];
      CheckClosureIsExact(m, closure);
      var fault := CheckClosure(m, closure);
      if fault.Some? { return fault; }
      SeparateExtends(m.closures, i);
      if previous.Some? && closure.gapStart <= previous.value.resumed { return Some(OverlapOrTouch); }
      previous := Some(closure);
    }
    assert m.closures[..|m.closures|] == m.closures;
    return None;
  }
}
