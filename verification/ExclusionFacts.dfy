/** Partial-row exclusion loses nothing and does not depend on how the rows were paged. */
module ExclusionFacts {
  import opened Closures
  import opened Exclusions
  import Segments

  // ---------------------------------------------------------------- dropped rows are a suffix

  lemma ClosesFollowOpens(m: Manifest, server: int, rows: seq<Row>, g: nat, h: nat)
    requires RowsSound(m, server, rows) && g < h < |rows|
    requires !IsPartial(m, rows[g]) && !IsPartial(m, rows[h])
    ensures rows[g].candle.closeTime < rows[h].candle.closeTime
  {
    assert RowSound(m, server, rows, g) && RowSound(m, server, rows, h);
  }

  /** Once an undeclared row is too recent, every later undeclared row is. */
  lemma {:induction false} CanonicalIsPrefix(m: Manifest, server: int, rows: seq<Row>)
    requires RowsSound(m, server, rows)
    ensures Canonical(m, server, rows) <= Undeclared(m, rows)
    ensures (forall g :: 0 <= g < |rows| && !IsPartial(m, rows[g]) ==> rows[g].candle.closeTime < server)
            ==> Canonical(m, server, rows) == Undeclared(m, rows)
  {
    if rows != [] {
      var front := rows[..|rows| - 1];
      var last := rows[|rows| - 1];
      SoundPrefix(m, server, rows, |rows| - 1);
      CanonicalIsPrefix(m, server, front);
      if !IsPartial(m, last) && last.candle.closeTime < server {
        forall g | 0 <= g < |front| && !IsPartial(m, front[g]) ensures front[g].candle.closeTime < server {
          assert front[g] == rows[g];
          ClosesFollowOpens(m, server, rows, g, |rows| - 1);
        }
      }
    }
  }

  // ---------------------------------------------------------------- nothing is lost

  /** The partial rows among the raw rows, in raw order. */
  function Partials(m: Manifest, rows: seq<Row>): seq<Row> {
    if rows == [] then []
    else
      var last := rows[|rows| - 1];
      Partials(m, rows[..|rows| - 1]) + if IsPartial(m, last) then [last] else []
  }

  lemma {:induction false} RowsArePartialOrNot(m: Manifest, rows: seq<Row>)
    ensures |rows| == |Undeclared(m, rows)| + |Partials(m, rows)|
  {
    if rows != [] {
      RowsArePartialOrNot(m, rows[..|rows| - 1]);
    }
  }

  lemma {:induction false} PartialsAreDeclared(m: Manifest, rows: seq<Row>)
    ensures forall j :: 0 <= j < |Partials(m, rows)| ==>
            Partials(m, rows)[j] in rows && IsPartial(m, Partials(m, rows)[j])
    ensures forall r :: r in rows && IsPartial(m, r) ==> r in Partials(m, rows)
  {
    if rows != [] {
      assert rows == rows[..|rows| - 1] + [rows[|rows| - 1]];
      PartialsAreDeclared(m, rows[..|rows| - 1]);
    }
  }

  lemma {:induction false} PartialsIncrease(m: Manifest, server: int, rows: seq<Row>)
    requires RowsSound(m, server, rows)
    ensures forall i, j :: 0 <= i < j < |Partials(m, rows)| ==>
              Partials(m, rows)[i].candle.openTime < Partials(m, rows)[j].candle.openTime
  {
    if rows != [] {
      var front := rows[..|rows| - 1];
      SoundPrefix(m, server, rows, |rows| - 1);
      PartialsIncrease(m, server, front);
      PartialsAreDeclared(m, front);
      forall j | 0 <= j < |Partials(m, front)|
        ensures Partials(m, front)[j].candle.openTime < rows[|rows| - 1].candle.openTime
      {
        EarlierRow(m, server, rows, Partials(m, front)[j]);
      }
    }
  }

  lemma EarlierRow(m: Manifest, server: int, rows: seq<Row>, r: Row)
    requires RowsSound(m, server, rows) && rows != [] && r in rows[..|rows| - 1]
    ensures r.candle.openTime < rows[|rows| - 1].candle.openTime
  {
    var g :| 0 <= g < |rows| - 1 && rows[..|rows| - 1][g] == r;
    assert RowSound(m, server, rows, |rows| - 1);
    assert rows[g] == r;
  }

  ghost function PickOf(m: Manifest, r: Row): nat {
    if IsPartial(m, r) then Declared(m.closures, r.candle.openTime).value else 0
  }

  ghost function PicksOf(m: Manifest, rows: seq<Row>): (picks: seq<nat>)
    ensures |picks| == |rows| && forall j :: 0 <= j < |rows| ==> picks[j] == PickOf(m, rows[j])
  {
    seq(|rows|, j requires 0 <= j < |rows| => PickOf(m, rows[j]))
  }

  lemma PickIsItsClosure(m: Manifest, r: Row)
    requires IsPartial(m, r)
    ensures PickOf(m, r) < |m.closures| && m.closures[PickOf(m, r)].partialCandle.openTime == r.candle.openTime
  {
    DeclaredFinds(m.closures, r.candle.openTime);
  }

  lemma OpensOrderClosures(m: Manifest, i: nat, j: nat)
    requires WellFormed(m) && i < |m.closures| && j < |m.closures|
    requires m.closures[i].partialCandle.openTime < m.closures[j].partialCandle.openTime
    ensures i < j
  {
    assert Exact(m, m.closures[i]) && Exact(m, m.closures[j]);
  }

  /** One partial row per closure: every closure is declared once and observed once. */
  lemma OnePartialPerClosure(m: Manifest, server: int, rows: seq<Row>)
    requires WellFormed(m) && RowsAccepted(m, server, rows)
    ensures |Partials(m, rows)| == |m.closures|
  {
    var partials := Partials(m, rows);
    var picks := PicksOf(m, partials);
    PartialsAreDeclared(m, rows);
    PartialsIncrease(m, server, rows);
    forall i, j | 0 <= i < j < |picks| ensures picks[i] < picks[j] {
      PickIsItsClosure(m, partials[i]);
      PickIsItsClosure(m, partials[j]);
      OpensOrderClosures(m, picks[i], picks[j]);
    }
    forall j | 0 <= j < |picks| ensures picks[j] < |m.closures| {
      PickIsItsClosure(m, partials[j]);
    }
    forall k | 0 <= k < |m.closures| ensures k in picks {
      ClosureIsPicked(m, server, rows, k);
    }
    Segments.CoveringIndicesCount(picks, |m.closures|);
  }

  lemma ClosureIsPicked(m: Manifest, server: int, rows: seq<Row>, k: nat)
    requires WellFormed(m) && RowsAccepted(m, server, rows) && k < |m.closures|
    ensures k in PicksOf(m, Partials(m, rows))
  {
    assert ClosureEvident(m, rows, m.closures[k]);
    var g :| 0 <= g < |rows| && rows[g].candle.openTime == m.closures[k].partialCandle.openTime;
    DeclaredIsIt(m, rows[g].candle.openTime, k);
    PartialsAreDeclared(m, rows);
    assert rows[g] in rows && IsPartial(m, rows[g]);
    var j :| 0 <= j < |Partials(m, rows)| && Partials(m, rows)[j] == rows[g];
    assert PicksOf(m, Partials(m, rows))[j] == k;
  }

  /** Raw rows are canonical candles, excluded rows and a dropped tail that had not closed yet. */
  lemma NothingIsLost(m: Manifest, server: int, rows: seq<Row>)
    requires WellFormed(m) && RowsAccepted(m, server, rows)
    ensures Canonical(m, server, rows) <= Undeclared(m, rows)
    ensures |rows| == |Undeclared(m, rows)| + |m.closures|
  {
    CanonicalIsPrefix(m, server, rows);
    RowsArePartialOrNot(m, rows);
    OnePartialPerClosure(m, server, rows);
  }

  /** Accepted rows name every closure in the form an exclusion can carry. */
  lemma AcceptedClosuresAreWellNamed(m: Manifest, server: int, rows: seq<Row>)
    requires WellFormed(m) && RowsAccepted(m, server, rows)
    ensures AllWellNamed(m.closures)
  {
    hide WellNamed;
    forall k | 0 <= k < |m.closures| ensures WellNamed(m.closures[k].id) {
      assert ClosureEvident(m, rows, m.closures[k]);
      var g :| 0 <= g < |rows| && rows[g].candle.openTime == m.closures[k].partialCandle.openTime;
      DeclaredIsIt(m, rows[g].candle.openTime, k);
      assert RowSound(m, server, rows, g);
    }
  }

  // ---------------------------------------------------------------- positions and paging

  /** The stored position is where the closure's partial row is among all raw rows. */
  lemma PositionIsTrue(pages: seq<Page>, m: Manifest, exclusions: seq<Exclusion>, k: nat)
    requires k < |m.closures| && k < |exclusions| && RecordsAt(pages, m.closures, exclusions, k)
    ensures 0 <= exclusions[k].canonicalIndex < |Flat(pages)|
    ensures Flat(pages)[exclusions[k].canonicalIndex].candle.openTime == m.closures[k].partialCandle.openTime
  {
    var x := exclusions[k];
    PositionIsGlobal(pages, x.pageSequence - 1, x.rowIndex);
  }

  lemma OpensAreUnique(m: Manifest, server: int, rows: seq<Row>, g: nat, h: nat)
    requires RowsSound(m, server, rows) && g < |rows| && h < |rows|
    ensures rows[g].candle.openTime < rows[h].candle.openTime <==> g < h
  {
    assert RowSound(m, server, rows, g) && RowSound(m, server, rows, h);
  }

  /** Exclusions come out in closure order, so sorting them by position changes nothing. */
  lemma PositionsAscend(pages: seq<Page>, m: Manifest, server: int, exclusions: seq<Exclusion>, i: nat, j: nat)
    requires WellFormed(m) && RowsAccepted(m, server, Flat(pages)) && i < j < |m.closures| == |exclusions|
    requires RecordsAt(pages, m.closures, exclusions, i) && RecordsAt(pages, m.closures, exclusions, j)
    ensures exclusions[i].canonicalIndex < exclusions[j].canonicalIndex
    ensures exclusions[i].closureId == m.closures[i].id && exclusions[i].closureId != exclusions[j].closureId
    ensures exclusions[i].rowHash != exclusions[j].rowHash
  {
    PositionIsTrue(pages, m, exclusions, i);
    PositionIsTrue(pages, m, exclusions, j);
    assert Exact(m, m.closures[i]) && Exact(m, m.closures[j]);
    OpensAreUnique(m, server, Flat(pages), exclusions[i].canonicalIndex, exclusions[j].canonicalIndex);
  }

  /** Two pagings of the same rows exclude the same rows at the same positions. */
  lemma PagingDoesNotMatter(pages: seq<Page>, pages': seq<Page>, m: Manifest, server: int,
                            exclusions: seq<Exclusion>, exclusions': seq<Exclusion>, k: nat)
    requires WellFormed(m) && Flat(pages) == Flat(pages') && RowsAccepted(m, server, Flat(pages))
    requires k < |m.closures| && k < |exclusions| && k < |exclusions'|
    requires RecordsAt(pages, m.closures, exclusions, k) && RecordsAt(pages', m.closures, exclusions', k)
    ensures exclusions[k].canonicalIndex == exclusions'[k].canonicalIndex
    ensures exclusions'[k]
            == exclusions[k].(pageSequence := exclusions'[k].pageSequence, pageSha := exclusions'[k].pageSha,
                                             rowIndex := exclusions'[k].rowIndex)
  {
    PositionIsTrue(pages, m, exclusions, k);
    PositionIsTrue(pages', m, exclusions', k);
    OpensAreUnique(m, server, Flat(pages), exclusions[k].canonicalIndex, exclusions'[k].canonicalIndex);
    OpensAreUnique(m, server, Flat(pages), exclusions'[k].canonicalIndex, exclusions[k].canonicalIndex);
  }
}
