/** UTC instants as Python's `datetime` fields, month arithmetic, and the prospective final window. */
module Calendar {
  import opened Wrappers

  const MICROS_PER_DAY := 86_400_000_000

  predicate Leap(year: int) {
    year % 4 == 0 && (year % 100 != 0 || year % 400 == 0)
  }

  function DaysIn(year: int, month: int): int {
    if month == 2 then (if Leap(year) then 29 else 28)
    else if month == 4 || month == 6 || month == 9 || month == 11 then 30
    else 31
  }

  datatype Instant = Instant(year: int, month: int, day: int, micros: int) {
    predicate Valid() {
      && 1 <= year <= 9999
      && 1 <= month <= 12
      && 1 <= day <= DaysIn(year, month)
      && 0 <= micros < MICROS_PER_DAY
    }

    /** Months since year zero. */
    function MonthNumber(): int {
      12 * year + month - 1
    }

    predicate Before(other: Instant) {
      || MonthNumber() < other.MonthNumber()
      || (MonthNumber() == other.MonthNumber() && (day < other.day || (day == other.day && micros < other.micros)))
    }

    predicate IsMonthBoundary() {
      day == 1 && micros == 0
    }

    function MonthStart(): Instant {
      this.(day := 1, micros := 0)
    }

    /** What a millisecond timestamp keeps. */
    function Truncated(): Instant {
      this.(micros := micros - micros % 1000)
    }
  }

  /** `_add_months`; `None` is the ValueError for a year outside 1..9999. */
  function AddMonths(value: Instant, months: int): Option<Instant> {
    var zeroBased := value.month - 1 + months;
    var year := value.year + zeroBased / 12;
    var month := zeroBased % 12 + 1;
    if 1 <= year <= 9999
    then
      var last := DaysIn(year, month);
      Some(Instant(year, month, if value.day <= last then value.day else last, value.micros))
    else None
  }

  function StrictNextMonthBoundary(value: Instant): Option<Instant> {
    AddMonths(value.MonthStart(), 1)
  }

  /** Adding months moves the month number by exactly that many and clamps the day. */
  lemma AddMonthsMoves(value: Instant, months: int)
    requires value.Valid() && AddMonths(value, months).Some?
    ensures var r := AddMonths(value, months).value;
            && r.Valid()
            && r.MonthNumber() == value.MonthNumber() + months
            && r.day == (if value.day <= DaysIn(r.year, r.month) then value.day else DaysIn(r.year, r.month))
            && r.micros == value.micros
  {
  }

  lemma SameMonthNumber(a: Instant, b: Instant)
    requires a.Valid() && b.Valid() && a.MonthNumber() == b.MonthNumber()
    ensures a.year == b.year && a.month == b.month
  {
  }

  /** Two additions are one addition exactly when the month in between does not clamp the day further. */
  lemma AdditiveUnlessClamped(value: Instant, a: int, b: int)
    requires value.Valid() && AddMonths(value, a).Some? && AddMonths(AddMonths(value, a).value, b).Some?
    ensures AddMonths(value, a + b).Some?
    ensures var middle := AddMonths(value, a).value;
            var end := AddMonths(value, a + b).value;
            AddMonths(middle, b) == Some(end) <==> end.day <= DaysIn(middle.year, middle.month)
  {
    var middle := AddMonths(value, a).value;
    AddMonthsMoves(value, a);
    AddMonthsMoves(middle, b);
    AddMonthsTo(value, a + b, AddMonths(middle, b).value);
    AddMonthsMoves(value, a + b);
    SameMonthNumber(AddMonths(middle, b).value, AddMonths(value, a + b).value);
  }

  lemma AddMonthsTo(value: Instant, months: int, target: Instant)
    requires value.Valid() && target.Valid() && target.MonthNumber() == value.MonthNumber() + months
    ensures AddMonths(value, months).Some?
  {
  }

  /** January, month by month: going through February loses the day exactly when February is too short for it. */
  lemma FebruaryClampsJanuary(value: Instant)
    requires value.Valid() && value.month == 1
    ensures var stepwise := AddMonths(AddMonths(value, 1).value, 1);
            && (stepwise == AddMonths(value, 2) <==> value.day <= DaysIn(value.year, 2))
            && stepwise.value.day == (if value.day <= DaysIn(value.year, 2) then value.day else DaysIn(value.year, 2))
            && AddMonths(value, 2).value.day == value.day
  {
    AdditiveUnlessClamped(value, 1, 1);
  }

  /** On month starts addition is additive and strictly monotone. */
  lemma MonthStartsAdd(value: Instant, a: int, b: int)
    requires value.Valid() && value.IsMonthBoundary() && AddMonths(value, a).Some?
    ensures AddMonths(value, a).value.IsMonthBoundary()
    ensures AddMonths(AddMonths(value, a).value, b) == AddMonths(value, a + b)
  {
    var middle := AddMonths(value, a).value;
    AddMonthsMoves(value, a);
    if AddMonths(middle, b).Some? {
      AdditiveUnlessClamped(value, a, b);
      AddMonthsMoves(value, a + b);
    }
  }

  lemma MonthStartsAreMonotone(a: Instant, b: Instant, months: int)
    requires a.Valid() && b.Valid() && a.IsMonthBoundary() && b.IsMonthBoundary()
    requires AddMonths(a, months).Some? && AddMonths(b, months).Some?
    ensures a.Before(b) <==> AddMonths(a, months).value.Before(AddMonths(b, months).value)
  {
    AddMonthsMoves(a, months);
    AddMonthsMoves(b, months);
  }

  /** The window starts at the least month boundary strictly after verification. */
  lemma NextBoundaryIsLeast(verified: Instant, other: Instant)
    requires verified.Valid() && StrictNextMonthBoundary(verified).Some?
    requires other.Valid() && other.IsMonthBoundary() && verified.Before(other)
    ensures var start := StrictNextMonthBoundary(verified).value;
            && start.Valid() && start.IsMonthBoundary() && verified.Before(start)
            && (start == other || start.Before(other))
  {
    var start := StrictNextMonthBoundary(verified).value;
    AddMonthsMoves(verified.MonthStart(), 1);
    if start.MonthNumber() == other.MonthNumber() {
      SameMonthNumber(start, other);
    }
  }

  // ---------------------------------------------------------------- the window

  datatype Window = Window(
    cutoff: Instant,
    verifiedAt: Instant,
    bridgeStart: Instant,
    bridgeEnd: Instant,
    finalStart: Instant,
    finalEnd: Instant)
  {
    /** What the constructor of the window accepts. */
    predicate Accepted() {
      && !verifiedAt.Before(cutoff)
      && bridgeStart == cutoff
      && bridgeEnd == finalStart
      && verifiedAt.Before(finalStart)
      && finalStart == finalStart.MonthStart()
      && AddMonths(finalStart, 18) == Some(finalEnd)
    }
  }

  datatype WindowError = PrecedesCutoff | YearOutOfRange | Rejected

  function FromVerifiedAt(cutoff: Instant, verified: Instant): Result<Window, WindowError> {
    if verified.Before(cutoff) then Err(PrecedesCutoff)
    else
      match StrictNextMonthBoundary(verified)
      case None => Err(YearOutOfRange)
      case Some(start) =>
        match AddMonths(start, 18)
        case None => Err(YearOutOfRange)
        case Some(end) =>
          var window := Window(cutoff, verified, cutoff, start, start, end);
          if window.Accepted() then Ok(window) else Err(Rejected)
  }

  /** A window exists exactly when verification is not before the cutoff and 19 months still fit the calendar. */
  lemma WindowExistsIff(cutoff: Instant, verified: Instant)
    requires cutoff.Valid() && verified.Valid()
    ensures FromVerifiedAt(cutoff, verified).Ok? <==>
              !verified.Before(cutoff) && verified.MonthNumber() + 19 <= 12 * 9999 + 11
    ensures FromVerifiedAt(cutoff, verified) != Err(Rejected)
    ensures FromVerifiedAt(cutoff, verified).Ok? ==>
              var w := FromVerifiedAt(cutoff, verified).value;
              && w.finalStart.MonthNumber() == verified.MonthNumber() + 1
              && w.finalEnd.MonthNumber() == verified.MonthNumber() + 19
  {
    var start := StrictNextMonthBoundary(verified);
    if start.Some? {
      AddMonthsMoves(verified.MonthStart(), 1);
      if AddMonths(start.value, 18).Some? {
        AddMonthsMoves(start.value, 18);
      }
    }
  }

  /** Truncating the timestamp to milliseconds never moves the window. */
  lemma TruncationKeepsWindow(cutoff: Instant, verified: Instant)
    requires cutoff.Valid() && cutoff.micros % 1000 == 0 && verified.Valid()
    requires FromVerifiedAt(cutoff, verified).Ok?
    ensures verified.Truncated().Valid() && !verified.Before(verified.Truncated())
    ensures FromVerifiedAt(cutoff, verified.Truncated())
            == Ok(FromVerifiedAt(cutoff, verified).value.(verifiedAt := verified.Truncated()))
  {
    var truncated := verified.Truncated();
    assert truncated.MonthStart() == verified.MonthStart();
    WindowExistsIff(cutoff, verified);
    AddMonthsMoves(verified.MonthStart(), 1);
    TruncationStaysAfter(cutoff, verified);
  }

  lemma TruncationStaysAfter(cutoff: Instant, verified: Instant)
    requires cutoff.micros % 1000 == 0 && !verified.Before(cutoff)
    ensures !verified.Truncated().Before(cutoff)
  {
  }
}
