/** Partial provider rows matched to declared closures and left out of the canonical candles. */
module Exclusions {
  import opened Wrappers
  import opened Domain
  import opened Closures
  import Segments

  /** A raw row: the digest of its canonical bytes and the candle it normalizes to. */
  datatype Row = Row(hash: string, candle: Candle)

  datatype Page = Page(sha: string, rows: seq<Row>)

  datatype Exclusion = Exclusion(
    closureId: string,
    pageSequence: int,
    pageSha: string,
    rowIndex: int,
    rowHash: string,
    openTime: int,
    actualClose: int,
    expectedClose: int,
    reason: string,
    canonicalIndex: int)

  datatype ExclusionError =
    | NoPages | WrongIdentity | RowOutsideWindow | DuplicateOpen | OutOfOrder | ActualCloseMismatch | RowCloseMismatch
    | RowHashMismatch | NotClosed | AppearsTwice | UndeclaredPartial | WrongStart | MissingPartial
    | InsideMissingInterval | LacksResumed | InvalidClosureId

  datatype Evidence = Evidence(candles: seq<Candle>, exclusions: seq<Exclusion>)

  // ---------------------------------------------------------------- rows, whatever the paging

  function Flat(pages: seq<Page>): seq<Row> {
    if pages == [] then [] else Flat(pages[..|pages| - 1]) + pages[|pages| - 1].rows
  }

  function Declared(closures: seq<ValidClosure>, openTime: int): Option<nat> {
    if closures == [] then None
    else if closures[|closures| - 1].partialCandle.openTime == openTime then Some(|closures| - 1)
    else Declared(closures[..|closures| - 1], openTime)
  }

  function ExpectedClose(m: Manifest, openTime: int): int {
    openTime + m.timeframe.Duration() - MILLISECOND
  }

  predicate IsPartial(m: Manifest, r: Row) {
    Declared(m.closures, r.candle.openTime).Some?
  }

  /** A declared row is the declared one, is closed and can be recorded; any other row fills its slot. */
  predicate RowMatches(m: Manifest, server: int, r: Row) {
    match Declared(m.closures, r.candle.openTime)
    case Some(k) =>
      k < |m.closures|
      && r.candle.closeTime == m.closures[k].partialCandle.actualClose
      && r.hash == m.closures[k].partialCandle.rowHash
      && r.candle.closeTime < server
      && WellNamed(m.closures[k].id)
    case None => r.candle.closeTime == ExpectedClose(m, r.candle.openTime)
  }

  predicate RowInScope(m: Manifest, r: Row) {
    r.candle.instrument == m.instrument && r.candle.timeframe == m.timeframe
    && m.startTime <= r.candle.openTime < m.endTime
  }

  ghost predicate RowSound(m: Manifest, server: int, rows: seq<Row>, g: int)
    requires 0 <= g < |rows|
  {
    && RowInScope(m, rows[g])
    && RowMatches(m, server, rows[g])
    && forall h :: 0 <= h < g ==> rows[h].candle.openTime < rows[g].candle.openTime
  }

  ghost predicate Present(rows: seq<Row>, openTime: int) {
    exists g :: 0 <= g < |rows| && rows[g].candle.openTime == openTime
  }

  /** The raw evidence around one closure: its partial row, nothing in the missing slots, the resumed row. */
  ghost predicate ClosureEvident(m: Manifest, rows: seq<Row>, c: Closure) {
    && Present(rows, c.partialCandle.openTime)
    && (forall slot :: 0 <= slot < c.missingCount ==> !Present(rows, c.missingStart + slot * m.timeframe.Duration()))
    && Present(rows, c.resumed)
  }

  /** What is accepted depends on the rows in order, not on how they were paged. */
  ghost predicate RowsAccepted(m: Manifest, server: int, rows: seq<Row>) {
    && rows != [] && rows[0].candle.openTime == m.startTime
    && (forall g :: 0 <= g < |rows| ==> RowSound(m, server, rows, g))
    && (forall k :: 0 <= k < |m.closures| ==> ClosureEvident(m, rows, m.closures[k]))
  }

  function Kept(m: Manifest, server: int, r: Row): seq<Candle> {
    if !IsPartial(m, r) && r.candle.closeTime < server then [r.candle.(completed := true)] else []
  }

  /** The undeclared rows closed before server time, in raw order. */
  function Canonical(m: Manifest, server: int, rows: seq<Row>): seq<Candle> {
    if rows == [] then [] else Canonical(m, server, rows[..|rows| - 1]) + Kept(m, server, rows[|rows| - 1])
  }

  function Undeclared(m: Manifest, rows: seq<Row>): seq<Candle> {
    if rows == [] then []
    else
      var last := rows[|rows| - 1];
      Undeclared(m, rows[..|rows| - 1]) + if IsPartial(m, last) then [] else [last.candle.(completed := true)]
  }

  /** The exclusion records closure k, at the page and row where its partial row really is. */
  ghost predicate Records(pages: seq<Page>, c: Closure, x: Exclusion) {
    && 1 <= x.pageSequence <= |pages|
    && 0 <= x.rowIndex < |pages[x.pageSequence - 1].rows|
    && x.pageSha == pages[x.pageSequence - 1].sha
    && x.canonicalIndex == |Flat(pages[..x.pageSequence - 1])| + x.rowIndex
    && x.closureId == c.id
    && x.openTime == c.partialCandle.openTime
    && x.actualClose == c.partialCandle.actualClose
    && x.expectedClose == c.partialCandle.expectedClose
    && x.rowHash == c.partialCandle.rowHash
    && x.reason == c.partialCandle.reason
    && pages[x.pageSequence - 1].rows[x.rowIndex].candle.openTime == x.openTime
  }

  ghost predicate RecordsAt(pages: seq<Page>, closures: seq<ValidClosure>, exclusions: seq<Exclusion>, k: nat)
    requires k < |closures| && k < |exclusions|
  {
    Records(pages, closures[k], exclusions[k])
  }

  lemma {:induction false} DeclaredFinds(closures: seq<ValidClosure>, openTime: int)
    ensures match Declared(closures, openTime)
            case Some(k) => k < |closures| && closures[k].partialCandle.openTime == openTime
            case None => forall k :: 0 <= k < |closures| ==> closures[k].partialCandle.openTime != openTime
  {
    if closures != [] {
      DeclaredFinds(closures[..|closures| - 1], openTime);
    }
  }

  lemma FlatExtends(pages: seq<Page>, p: nat)
    requires p < |pages|
    ensures Flat(pages[..p + 1]) == Flat(pages[..p]) + pages[p].rows
  {
    assert pages[..p + 1][..p] == pages[..p];
  }

  lemma {:induction false} FlatPrefix(pages: seq<Page>, p: nat)
    requires p <= |pages|
    ensures Flat(pages[..p]) <= Flat(pages)
    decreases |pages| - p
  {
    if p == |pages| {
      assert pages[..p] == pages;
    } else {
      FlatExtends(pages, p);
      FlatPrefix(pages, p + 1);
    }
  }

  /** The position an exclusion stores is the row's index in the whole raw evidence. */
  lemma PositionIsGlobal(pages: seq<Page>, p: nat, i: nat)
    requires p < |pages| && i < |pages[p].rows|
    ensures |Flat(pages[..p])| + i < |Flat(pages)|
    ensures Flat(pages)[|Flat(pages[..p])| + i] == pages[p].rows[i]
  {
    FlatExtends(pages, p);
    FlatPrefix(pages, p + 1);
  }

  // ---------------------------------------------------------------- the matching loop

  ghost predicate OpensSeen(rows: seq<Row>, seen: set<int>) {
    forall o :: o in seen <==> Present(rows, o)
  }

  /** The exclusions found so far, with the closures they record, in closure order. */
  ghost predicate Matched(
    pages: seq<Page>, closures: seq<ValidClosure>, rows: seq<Row>, matches: seq<Exclusion>, picks: seq<nat>)
  {
    && |picks| == |matches|
    && Segments.Picked(closures, picks)
    && (forall j :: 0 <= j < |matches| ==> Records(pages, closures[picks[j]], matches[j]))
    && (forall j :: 0 <= j < |matches| ==> Present(rows, closures[picks[j]].partialCandle.openTime))
    && (forall g :: 0 <= g < |rows| && Declared(closures, rows[g].candle.openTime).Some? ==>
          Declared(closures, rows[g].candle.openTime).value in picks)
  }

  ghost predicate RowsSound(m: Manifest, server: int, rows: seq<Row>) {
    forall g :: 0 <= g < |rows| ==> RowSound(m, server, rows, g)
  }

  lemma SoundPrefix(m: Manifest, server: int, rows: seq<Row>, k: nat)
    requires k <= |rows| && RowsSound(m, server, rows)
    ensures RowsSound(m, server, rows[..k])
  {
    forall g | 0 <= g < k ensures RowSound(m, server, rows[..k], g) {
      assert RowSound(m, server, rows, g);
    }
  }

  lemma SoundExtends(m: Manifest, server: int, rows: seq<Row>, r: Row)
    requires RowsSound(m, server, rows)
    ensures RowsSound(m, server, rows + [r]) <==> RowSound(m, server, rows + [r], |rows|)
  {
    var rows' := rows + [r];
    if RowSound(m, server, rows', |rows|) {
      forall g | 0 <= g < |rows'| ensures RowSound(m, server, rows', g) {
        if g < |rows| { assert RowSound(m, server, rows, g); }
      }
    }
  }

  /** Only the last row matters for order: the earlier ones already increase. */
  lemma LaterThanLast(m: Manifest, server: int, rows: seq<Row>, r: Row)
    requires RowsSound(m, server, rows) && rows != []
    ensures (forall h :: 0 <= h < |rows| ==> rows[h].candle.openTime < r.candle.openTime)
            <==> rows[|rows| - 1].candle.openTime < r.candle.openTime
  {
    assert RowSound(m, server, rows, |rows| - 1);
  }

  lemma SeenExtends(rows: seq<Row>, seen: set<int>, r: Row)
    requires OpensSeen(rows, seen)
    ensures OpensSeen(rows + [r], seen + {r.candle.openTime})
  {
    var rows' := rows + [r];
    forall o ensures o in seen + {r.candle.openTime} <==> Present(rows', o) {
      if o in seen {
        var g :| 0 <= g < |rows| && rows[g].candle.openTime == o;
        assert rows'[g].candle.openTime == o;
      }
      if o == r.candle.openTime { assert rows'[|rows|].candle.openTime == o; }
      if Present(rows', o) && o != r.candle.openTime {
        var g :| 0 <= g < |rows'| && rows'[g].candle.openTime == o;
        assert rows[g].candle.openTime == o;
      }
    }
  }

  lemma PresentExtends(rows: seq<Row>, r: Row, o: int)
    requires Present(rows, o)
    ensures Present(rows + [r], o)
  {
    var g :| 0 <= g < |rows| && rows[g].candle.openTime == o;
    assert (rows + [r])[g].candle.openTime == o;
  }

  lemma MatchedSkips(
    pages: seq<Page>, closures: seq<ValidClosure>, rows: seq<Row>, matches: seq<Exclusion>, picks: seq<nat>,
    r: Row)
    requires Matched(pages, closures, rows, matches, picks) && Declared(closures, r.candle.openTime).None?
    ensures Matched(pages, closures, rows + [r], matches, picks)
  {
    forall j | 0 <= j < |matches| ensures Present(rows + [r], closures[picks[j]].partialCandle.openTime) {
      PresentExtends(rows, r, closures[picks[j]].partialCandle.openTime);
    }
  }

  lemma PickIsLater(m: Manifest, rows: seq<Row>, r: Row, earlier: nat, later: nat)
    requires WellFormed(m) && earlier < |m.closures| && later < |m.closures|
    requires Present(rows, m.closures[earlier].partialCandle.openTime)
    requires m.closures[later].partialCandle.openTime == r.candle.openTime
    requires forall h :: 0 <= h < |rows| ==> rows[h].candle.openTime < r.candle.openTime
    ensures earlier < later
  {
    assert Exact(m, m.closures[earlier]) && Exact(m, m.closures[later]);
  }

  lemma MatchedExtends(
    pages: seq<Page>, m: Manifest, rows: seq<Row>, matches: seq<Exclusion>, picks: seq<nat>, r: Row, k: nat,
    x: Exclusion)
    requires WellFormed(m) && Matched(pages, m.closures, rows, matches, picks)
    requires Declared(m.closures, r.candle.openTime) == Some(k) && k < |m.closures|
    requires m.closures[k].partialCandle.openTime == r.candle.openTime
    requires Records(pages, m.closures[k], x)
    requires forall h :: 0 <= h < |rows| ==> rows[h].candle.openTime < r.candle.openTime
    ensures Matched(pages, m.closures, rows + [r], matches + [x], picks + [k])
    ensures k !in picks
  {
    var rows', matches', picks' := rows + [r], matches + [x], picks + [k];
    forall j | 0 <= j < |picks| ensures picks[j] < k {
      PickIsLater(m, rows, r, picks[j], k);
    }
    forall j | 0 <= j < |matches'| ensures Present(rows', m.closures[picks'[j]].partialCandle.openTime) {
      if j < |matches| { PresentExtends(rows, r, m.closures[picks[j]].partialCandle.openTime); }
      else { assert rows'[|rows|].candle.openTime == m.closures[k].partialCandle.openTime; }
    }
    forall g | 0 <= g < |rows'| && Declared(m.closures, rows'[g].candle.openTime).Some?
      ensures Declared(m.closures, rows'[g].candle.openTime).value in picks'
    {
      if g < |rows| {
        assert rows'[g] == rows[g];
        assert Declared(m.closures, rows[g].candle.openTime).value in picks;
      } else {
        assert picks'[|picks|] == k;
      }
    }
  }

  /** The checks made on one row, in the order the source makes them. */
  function CheckRow(m: Manifest, server: int, seen: set<int>, previous: Option<int>, r: Row): Option<ExclusionError> {
    if r.candle.instrument != m.instrument || r.candle.timeframe != m.timeframe then Some(WrongIdentity)
    else if !(m.startTime <= r.candle.openTime < m.endTime) then Some(RowOutsideWindow)
    else if r.candle.openTime in seen then Some(DuplicateOpen)
    else if previous.Some? && r.candle.openTime <= previous.value then Some(OutOfOrder)
    else
      match Declared(m.closures, r.candle.openTime)
      case None => if r.candle.closeTime != ExpectedClose(m, r.candle.openTime) then Some(UndeclaredPartial) else None
      case Some(k) =>
        if k >= |m.closures| then Some(AppearsTwice)
        else
          var partialCandle := m.closures[k].partialCandle;
          if r.candle.closeTime != partialCandle.actualClose then Some(ActualCloseMismatch)
          else if ExpectedClose(m, r.candle.openTime) != partialCandle.expectedClose then Some(RowCloseMismatch)
          else if r.hash != partialCandle.rowHash then Some(RowHashMismatch)
          else if r.candle.closeTime >= server then Some(NotClosed)
          else if !WellNamed(m.closures[k].id) then Some(InvalidClosureId)
          else None
  }

  function LastOpen(rows: seq<Row>): Option<int> {
    if rows == [] then None else Some(rows[|rows| - 1].candle.openTime)
  }

  lemma CheckRowIsSound(m: Manifest, server: int, rows: seq<Row>, seen: set<int>, r: Row)
    requires WellFormed(m) && RowsSound(m, server, rows) && OpensSeen(rows, seen)
    ensures CheckRow(m, server, seen, LastOpen(rows), r).None? <==> RowSound(m, server, rows + [r], |rows|)
    ensures CheckRow(m, server, seen, LastOpen(rows), r) != Some(RowCloseMismatch)
  {
    hide Present;
    DeclaredFinds(m.closures, r.candle.openTime);
    var declared := Declared(m.closures, r.candle.openTime);
    if declared.Some? { assert Exact(m, m.closures[declared.value]); }
    var rows' := rows + [r];
    if rows != [] { LaterThanLast(m, server, rows, r); }
    assert forall h :: 0 <= h < |rows| ==> rows'[h] == rows[h];
    SeenIsEarlier(rows, seen, r);
  }

  lemma SeenIsEarlier(rows: seq<Row>, seen: set<int>, r: Row)
    requires OpensSeen(rows, seen)
    ensures (forall h :: 0 <= h < |rows| ==> rows[h].candle.openTime < r.candle.openTime) ==> r.candle.openTime !in seen
  {
  }

  function Excluded(pages: seq<Page>, m: Manifest, p: nat, i: nat, global: int, k: nat): Exclusion
    requires p < |pages| && i < |pages[p].rows| && k < |m.closures|
  {
    var r := pages[p].rows[i];
    Exclusion(m.closures[k].id, p + 1, pages[p].sha, i, r.hash, r.candle.openTime, r.candle.closeTime,
              ExpectedClose(m, r.candle.openTime), m.closures[k].partialCandle.reason, global)
  }

  /** Everything the loop knows after the rows read so far. */
  ghost predicate Reading(
    pages: seq<Page>, m: Manifest, server: int, rows: seq<Row>, matches: seq<Exclusion>,
    canonical: seq<Candle>, seen: set<int>, previous: Option<int>, picks: seq<nat>)
  {
    && previous == LastOpen(rows)
    && canonical == Canonical(m, server, rows)
    && RowsSound(m, server, rows)
    && OpensSeen(rows, seen)
    && Matched(pages, m.closures, rows, matches, picks)
  }

  lemma ReadingStarts(pages: seq<Page>, m: Manifest, server: int)
    ensures Reading(pages, m, server, [], [], [], {}, None, [])
  {
  }

  lemma FaultRejects(
    pages: seq<Page>, m: Manifest, server: int, rows: seq<Row>, matches: seq<Exclusion>,
    canonical: seq<Candle>, seen: set<int>, previous: Option<int>, picks: seq<nat>, row: Row, all: seq<Row>)
    requires WellFormed(m) && Reading(pages, m, server, rows, matches, canonical, seen, previous, picks)
    requires rows + [row] <= all && CheckRow(m, server, seen, previous, row).Some?
    ensures !RowsAccepted(m, server, all)
    ensures CheckRow(m, server, seen, previous, row).value != AppearsTwice
    ensures CheckRow(m, server, seen, previous, row).value != RowCloseMismatch
  {
    hide RowSound, Matched;
    CheckRowIsSound(m, server, rows, seen, row);
    SoundExtends(m, server, rows, row);
    BadRowRejects(m, server, rows + [row], all);
    DeclaredFinds(m.closures, row.candle.openTime);
  }

  lemma PlainRowReads(
    pages: seq<Page>, m: Manifest, server: int, rows: seq<Row>, matches: seq<Exclusion>,
    canonical: seq<Candle>, seen: set<int>, previous: Option<int>, picks: seq<nat>, row: Row)
    requires WellFormed(m) && Reading(pages, m, server, rows, matches, canonical, seen, previous, picks)
    requires CheckRow(m, server, seen, previous, row).None? && Declared(m.closures, row.candle.openTime).None?
    ensures Reading(pages, m, server, rows + [row], matches, canonical + Kept(m, server, row),
                    seen + {row.candle.openTime}, Some(row.candle.openTime), picks)
  {
    hide RowSound, Matched, OpensSeen, RowsSound;
    CheckRowIsSound(m, server, rows, seen, row);
    SoundExtends(m, server, rows, row);
    SeenExtends(rows, seen, row);
    MatchedSkips(pages, m.closures, rows, matches, picks, row);
    assert (rows + [row])[..|rows|] == rows;
  }

  lemma PartialRowReads(
    pages: seq<Page>, m: Manifest, server: int, rows: seq<Row>, matches: seq<Exclusion>,
    canonical: seq<Candle>, seen: set<int>, previous: Option<int>, picks: seq<nat>, p: nat, i: nat, k: nat)
    requires WellFormed(m) && Reading(pages, m, server, rows, matches, canonical, seen, previous, picks)
    requires p < |pages| && i < |pages[p].rows| && k < |m.closures| && rows == Before(pages, p, i)
    requires CheckRow(m, server, seen, previous, pages[p].rows[i]).None?
    requires Declared(m.closures, pages[p].rows[i].candle.openTime) == Some(k)
    ensures var row := pages[p].rows[i];
            Reading(pages, m, server, rows + [row], matches + [Excluded(pages, m, p, i, |rows|, k)], canonical,
                    seen + {row.candle.openTime}, Some(row.candle.openTime), picks + [k])
    ensures k !in picks
  {
    hide RowSound, Matched, OpensSeen, RowsSound, Records;
    var row := pages[p].rows[i];
    CheckRowIsSound(m, server, rows, seen, row);
    SoundExtends(m, server, rows, row);
    SeenExtends(rows, seen, row);
    SoundOrder(m, server, rows, row);
    DeclaredFinds(m.closures, row.candle.openTime);
    ExcludedRecords(pages, m, server, Flat(pages[..p]), p, i, k);
    MatchedExtends(pages, m, rows, matches, picks, row, k, Excluded(pages, m, p, i, |rows|, k));
    assert (rows + [row])[..|rows|] == rows;
    assert canonical + [] == canonical;
  }

  /** The rows of the pages before page p and its own first i rows. */
  ghost function Before(pages: seq<Page>, p: nat, i: nat): seq<Row>
    requires p < |pages| && i <= |pages[p].rows|
  {
    Flat(pages[..p]) + pages[p].rows[..i]
  }

  lemma BeforeNext(pages: seq<Page>, p: nat, i: nat)
    requires p < |pages| && i < |pages[p].rows|
    ensures Before(pages, p, i + 1) == Before(pages, p, i) + [pages[p].rows[i]]
    ensures Before(pages, p, i) + [pages[p].rows[i]] <= Flat(pages)
  {
    FlatExtends(pages, p);
    FlatPrefix(pages, p + 1);
    var rows := pages[p].rows;
    assert rows[..i + 1] == rows[..i] + [rows[i]];
    assert Before(pages, p, i + 1) <= Flat(pages[..p + 1]);
  }

  lemma BeforeEnds(pages: seq<Page>, p: nat)
    requires p < |pages|
    ensures Before(pages, p, 0) == Flat(pages[..p])
    ensures Before(pages, p, |pages[p].rows|) == Flat(pages[..p + 1])
  {
    FlatExtends(pages, p);
  }

  /** `match_and_exclude_partial_candles`, with the pages already decoded and normalized. */
  method MatchAndExclude(pages: seq<Page>, m: Manifest, server: int) returns (r: Result<Evidence, ExclusionError>)
    requires WellFormed(m)
    ensures r.Ok? <==> RowsAccepted(m, server, Flat(pages))
    ensures r.Ok? ==> r.value.candles == Canonical(m, server, Flat(pages))
    ensures r.Ok? ==> |r.value.exclusions| == |m.closures|
                      && forall k :: 0 <= k < |m.closures| ==> RecordsAt(pages, m.closures, r.value.exclusions, k)
    ensures r != Err(AppearsTwice) && r != Err(RowCloseMismatch)
  {
    hide Reading, RowsAccepted, WellFormed, CheckRow, RecordsAt, Canonical, Kept, Excluded, Declared, Before;
    if pages == [] {
      NoRowsRejected(m, server);
      return Err(NoPages);
    }
    var matches: seq<Exclusion>, canonical: seq<Candle>, seen: set<int> := [], [], {};
    var previous: Option<int>, global := None, 0;
    ghost var rows: seq<Row>, picks: seq<nat> := [], [];
    ReadingStarts(pages, m, server);
    for p := 0 to |pages|
      invariant rows == Flat(pages[..p]) && global == |rows|
      invariant Reading(pages, m, server, rows, matches, canonical, seen, previous, picks)
    {
      BeforeEnds(pages, p);
      for i := 0 to |pages[p].rows|
        invariant rows == Before(pages, p, i) && global == |rows|
        invariant Reading(pages, m, server, rows, matches, canonical, seen, previous, picks)
      {
        var row := pages[p].rows[i];
        BeforeNext(pages, p, i);
        var fault := CheckRow(m, server, seen, previous, row);
        if fault.Some? {
          FaultRejects(pages, m, server, rows, matches, canonical, seen, previous, picks, row, Flat(pages));
          return Err(fault.value);
        }
        DeclaredFinds(m.closures, row.candle.openTime);
        var declared := Declared(m.closures, row.candle.openTime);
        if declared.Some? {
          PartialRowReads(pages, m, server, rows, matches, canonical, seen, previous, picks, p, i, declared.value);
          matches := matches + [Excluded(pages, m, p, i, global, declared.value)];
          picks := picks + [declared.value];
        } else {
          PlainRowReads(pages, m, server, rows, matches, canonical, seen, previous, picks, row);
          canonical := canonical + Kept(m, server, row);
        }
        seen := seen + {row.candle.openTime};
        previous := Some(row.candle.openTime);
        rows := rows + [row];
        global := global + 1;
      }
    }
    assert pages[..|pages|] == pages;
    ReadingParts(pages, m, server, rows, matches, canonical, seen, previous, picks);
    r := Conclude(pages, m, server, rows, canonical, matches, seen, picks);
  }

  lemma NoRowsRejected(m: Manifest, server: int)
    ensures !RowsAccepted(m, server, Flat([]))
  {
  }

  lemma ReadingParts(
    pages: seq<Page>, m: Manifest, server: int, rows: seq<Row>, matches: seq<Exclusion>,
    canonical: seq<Candle>, seen: set<int>, previous: Option<int>, picks: seq<nat>)
    requires Reading(pages, m, server, rows, matches, canonical, seen, previous, picks)
    ensures RowsSound(m, server, rows) && OpensSeen(rows, seen) && Matched(pages, m.closures, rows, matches, picks)
    ensures canonical == Canonical(m, server, rows)
  {
  }

  /** The evidence of one closure among the opens seen. */
  method CheckEvidence(m: Manifest, ghost rows: seq<Row>, seen: set<int>, closure: ValidClosure)
    returns (error: Option<ExclusionError>)
    requires OpensSeen(rows, seen) && Present(rows, closure.partialCandle.openTime)
    ensures error.None? <==> ClosureEvident(m, rows, closure)
    ensures error.Some? ==> error.value == InsideMissingInterval || error.value == LacksResumed
  {
    var d := m.timeframe.Duration();
    var absent := set slot | 0 <= slot < closure.missingCount :: closure.missingStart + slot * d;
    if absent * seen != {} {
      var o :| o in absent * seen;
      assert Present(rows, o);
      return Some(InsideMissingInterval);
    }
    forall slot | 0 <= slot < closure.missingCount ensures !Present(rows, closure.missingStart + slot * d) {
      var o := closure.missingStart + slot * d;
      assert o in absent && o !in absent * seen;
    }
    if closure.resumed !in seen { return Some(LacksResumed); }
    return None;
  }

  predicate Unmatched(matches: seq<Exclusion>, id: string) {
    forall j | 0 <= j < |matches| :: matches[j].closureId != id
  }

  /** The completeness checks after the last row. */
  method Conclude(pages: seq<Page>, m: Manifest, server: int, ghost rows: seq<Row>, canonical: seq<Candle>,
                  matches: seq<Exclusion>, seen: set<int>, ghost picks: seq<nat>)
    returns (r: Result<Evidence, ExclusionError>)
    requires WellFormed(m) && RowsSound(m, server, rows) && OpensSeen(rows, seen)
    requires Matched(pages, m.closures, rows, matches, picks)
    ensures r.Ok? <==> RowsAccepted(m, server, rows)
    ensures r.Ok? ==> r.value == Evidence(canonical, matches) && |matches| == |m.closures|
    ensures r.Ok? ==> forall k :: 0 <= k < |m.closures| ==> RecordsAt(pages, m.closures, matches, k)
    ensures r.Err? ==> r.error != AppearsTwice && r.error != RowCloseMismatch
  {
    hide RowSound, Records, Exact, Matched, ClosureEvident, OpensSeen, Present, WellFormed, RowsSound, RecordsAt,
         WellNamed;
    FirstIsLeast(m, server, rows, seen);
    if seen == {} || !(m.startTime in seen && forall o | o in seen :: m.startTime <= o) { return Err(WrongStart); }
    if k :| 0 <= k < |m.closures| && Unmatched(matches, m.closures[k].id) {
      MissingIsAbsent(pages, m, rows, matches, picks, k);
      return Err(MissingPartial);
    }
    forall k | 0 <= k < |m.closures| ensures k in picks && Present(rows, m.closures[k].partialCandle.openTime) {
      assert !Unmatched(matches, m.closures[k].id);
      var j :| 0 <= j < |matches| && matches[j].closureId == m.closures[k].id;
      MatchNamesClosure(pages, m, rows, matches, picks, j, k);
    }
    for k := 0 to |m.closures|
      invariant forall j :: 0 <= j < k ==> ClosureEvident(m, rows, m.closures[j])
    {
      var fault := CheckEvidence(m, rows, seen, m.closures[k]);
      if fault.Some? { return Err(fault.value); }
    }
    SoundMeansAccepted(m, server, rows);
    AllRecorded(pages, m, rows, matches, picks);
    return Ok(Evidence(canonical, matches));
  }

  lemma SoundMeansAccepted(m: Manifest, server: int, rows: seq<Row>)
    requires RowsSound(m, server, rows) && rows != [] && rows[0].candle.openTime == m.startTime
    requires forall k :: 0 <= k < |m.closures| ==> ClosureEvident(m, rows, m.closures[k])
    ensures RowsAccepted(m, server, rows)
  {
  }

  lemma AllRecorded(pages: seq<Page>, m: Manifest, rows: seq<Row>, matches: seq<Exclusion>, picks: seq<nat>)
    requires Matched(pages, m.closures, rows, matches, picks)
    requires forall k :: 0 <= k < |m.closures| ==> k in picks
    ensures |matches| == |m.closures|
    ensures forall k :: 0 <= k < |m.closures| ==> RecordsAt(pages, m.closures, matches, k)
  {
    hide Records;
    Segments.CoveringIndicesCount(picks, |m.closures|);
    forall k | 0 <= k < |m.closures| ensures RecordsAt(pages, m.closures, matches, k) {
      assert Records(pages, m.closures[picks[k]], matches[k]);
    }
  }

  lemma BadRowRejects(m: Manifest, server: int, prefix: seq<Row>, rows: seq<Row>)
    requires prefix <= rows && !RowsSound(m, server, prefix)
    ensures !RowsAccepted(m, server, rows)
  {
    assert rows[..|prefix|] == prefix;
    if RowsSound(m, server, rows) {
      SoundPrefix(m, server, rows, |prefix|);
    }
  }

  lemma SoundOrder(m: Manifest, server: int, rows: seq<Row>, r: Row)
    requires RowSound(m, server, rows + [r], |rows|)
    ensures forall h :: 0 <= h < |rows| ==> rows[h].candle.openTime < r.candle.openTime
    ensures RowMatches(m, server, r)
  {
    assert forall h :: 0 <= h < |rows| ==> (rows + [r])[h] == rows[h];
  }

  lemma ExcludedRecords(pages: seq<Page>, m: Manifest, server: int, before: seq<Row>, p: nat, i: nat, k: nat)
    requires WellFormed(m) && p < |pages| && i < |pages[p].rows| && k < |m.closures| && before == Flat(pages[..p])
    requires Declared(m.closures, pages[p].rows[i].candle.openTime) == Some(k)
    requires RowMatches(m, server, pages[p].rows[i])
    ensures Records(pages, m.closures[k], Excluded(pages, m, p, i, |before| + i, k))
  {
    DeclaredFinds(m.closures, pages[p].rows[i].candle.openTime);
    assert Exact(m, m.closures[k]);
    assert pages[..p + 1 - 1] == pages[..p];
  }

  lemma FirstIsLeast(m: Manifest, server: int, rows: seq<Row>, seen: set<int>)
    requires RowsSound(m, server, rows) && OpensSeen(rows, seen)
    ensures (rows != [] && rows[0].candle.openTime == m.startTime)
            <==> (seen != {} && m.startTime in seen && forall o :: o in seen ==> m.startTime <= o)
  {
    forall o | o in seen ensures m.startTime <= o && rows != [] && rows[0].candle.openTime <= o {
      var g :| 0 <= g < |rows| && rows[g].candle.openTime == o;
      assert RowSound(m, server, rows, g) && RowSound(m, server, rows, 0);
    }
    if rows != [] {
      assert Present(rows, rows[0].candle.openTime);
      assert RowSound(m, server, rows, 0);
    }
  }

  lemma MatchNamesClosure(
    pages: seq<Page>, m: Manifest, rows: seq<Row>, matches: seq<Exclusion>, picks: seq<nat>, j: nat, k: nat)
    requires WellFormed(m) && Matched(pages, m.closures, rows, matches, picks)
    requires j < |matches| && k < |m.closures| && matches[j].closureId == m.closures[k].id
    ensures picks[j] == k && k in picks && Present(rows, m.closures[k].partialCandle.openTime)
  {
    assert Records(pages, m.closures[picks[j]], matches[j]);
  }

  lemma MissingIsAbsent(pages: seq<Page>, m: Manifest, rows: seq<Row>, matches: seq<Exclusion>, picks: seq<nat>, k: nat)
    requires WellFormed(m) && Matched(pages, m.closures, rows, matches, picks) && k < |m.closures|
    requires Unmatched(matches, m.closures[k].id)
    ensures !ClosureEvident(m, rows, m.closures[k])
  {
    if Present(rows, m.closures[k].partialCandle.openTime) {
      PresentIsMatched(pages, m, rows, matches, picks, k);
    }
  }

  lemma PresentIsMatched(
    pages: seq<Page>, m: Manifest, rows: seq<Row>, matches: seq<Exclusion>, picks: seq<nat>, k: nat)
    requires WellFormed(m) && Matched(pages, m.closures, rows, matches, picks) && k < |m.closures|
    requires Present(rows, m.closures[k].partialCandle.openTime)
    ensures exists j :: 0 <= j < |matches| && matches[j].closureId == m.closures[k].id
  {
    var g :| 0 <= g < |rows| && rows[g].candle.openTime == m.closures[k].partialCandle.openTime;
    DeclaredIsIt(m, rows[g].candle.openTime, k);
    assert Declared(m.closures, rows[g].candle.openTime).value in picks;
    var j :| 0 <= j < |picks| && picks[j] == k;
    assert Records(pages, m.closures[picks[j]], matches[j]);
  }

  lemma DeclaredIsIt(m: Manifest, openTime: int, k: nat)
    requires WellFormed(m) && k < |m.closures| && m.closures[k].partialCandle.openTime == openTime
    ensures Declared(m.closures, openTime) == Some(k)
  {
    DeclaredFinds(m.closures, openTime);
  }
}
