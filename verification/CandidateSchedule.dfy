/**
 The schedule built from one arbitration decision after another: state is carried between contiguous
 predictions, dropped across gaps, and forced to cash before every segment boundary.
 */
module CandidateSchedule {
  import opened Wrappers
  import opened Domain
  import opened Arbitration
  import Sorting

  datatype Event = Event(index: int, enter: bool)

  datatype Options = Options(
    policy: ValidPolicy,
    thresholds: Option<(real, real)>,
    diagnosticOnly: bool,
    boundaries: seq<int>,
    latency: int)
  {
    /** `_validate_segment_boundary_inputs` and the threshold checks. */
    predicate Valid() {
      && latency >= 0
      && (forall i, j | 0 <= i < j < |boundaries| :: boundaries[i] < boundaries[j])
      && (forall i | 0 <= i < |boundaries| :: boundaries[i] >= 1)
      && (thresholds.Some? ==> 0.0 <= thresholds.value.0 <= 1.0 && 0.0 <= thresholds.value.1 <= 1.0)
    }
  }

  datatype ScheduleError = InvalidOptions | InvalidInput

  datatype Walk = Walk(
    carry: Carry, events: seq<Event>, previous: Option<int>, decisions: seq<Decision>, carries: seq<Carry>)

  function OverlayFor(o: Options, regime: Regime): Option<Overlay> {
    match o.thresholds
    case None => None
    case Some((trend, mean)) =>
      Some(Overlay(if regime.Trending? then Some(trend) else if regime.Ranging? then Some(mean) else None,
                   !o.diagnosticOnly, !o.diagnosticOnly))
  }

  // ---------------------------------------------------------------- editing the event list

  function KeepUpTo(events: seq<Event>, limit: int): seq<Event> {
    if events == [] then []
    else
      var last := events[|events| - 1];
      KeepUpTo(events[..|events| - 1], limit) + if last.index <= limit then [last] else []
  }

  function DropAt(events: seq<Event>, index: int): seq<Event> {
    if events == [] then []
    else
      var last := events[|events| - 1];
      DropAt(events[..|events| - 1], index) + if last.index != index then [last] else []
  }

  function Last(events: seq<Event>): Event
    requires events != []
  {
    events[|events| - 1]
  }

  /** `_force_cash_before_segment_boundary`. */
  function ForceCash(events: seq<Event>, boundary: int, latency: int): seq<Event> {
    var safe := boundary - 2 - latency;
    var kept := KeepUpTo(events, safe);
    if safe < 0 then kept
    else
      var popped := if kept != [] && Last(kept) == Event(safe, true) then kept[..|kept| - 1] else kept;
      if popped != [] && Last(popped).enter then popped + [Event(safe, false)] else popped
  }

  /** `_close_long_before_discontinuity`. */
  function CloseLong(events: seq<Event>, previous: int): seq<Event> {
    if events != [] && Last(events) == Event(previous, true) then events[..|events| - 1]
    else events + [Event(previous, false)]
  }

  /** Forces cash before each boundary in a half-open range of candle indices, in order. */
  function ForceBetween(events: seq<Event>, boundaries: seq<int>, after: int, upTo: int, latency: int): seq<Event> {
    if boundaries == [] then events
    else
      var before := ForceBetween(events, boundaries[..|boundaries| - 1], after, upTo, latency);
      var b := boundaries[|boundaries| - 1];
      if after < b <= upTo then ForceCash(before, b, latency) else before
  }

  predicate Crosses(boundaries: seq<int>, after: int, upTo: int) {
    exists i | 0 <= i < |boundaries| :: after < boundaries[i] <= upTo
  }

  predicate Contiguous(o: Options, previous: Option<int>, index: int) {
    previous.None? || (index == previous.value + 1 && !Crosses(o.boundaries, previous.value, index))
  }

  // ---------------------------------------------------------------- the walk

  function EventsBefore(o: Options, w: Walk, index: int): seq<Event> {
    if w.previous.None? then w.events
    else if Crosses(o.boundaries, w.previous.value, index) then
      ForceBetween(w.events, o.boundaries, w.previous.value, index, o.latency)
    else if !Contiguous(o, w.previous, index) && w.carry.long then CloseLong(w.events, w.previous.value)
    else w.events
  }

  function CarryBefore(o: Options, w: Walk, index: int): Carry {
    if Contiguous(o, w.previous, index) then w.carry else CASH
  }

  function Record(events: seq<Event>, index: int, action: Action): seq<Event> {
    if action.EnterLong? then events + [Event(index, true)]
    else if action.ExitToCash? then events + [Event(index, false)]
    else events
  }

  function Step(o: Options, w: Walk, m: Market): Result<Walk, ScheduleError> {
    var carry := CarryBefore(o, w, m.index);
    if !m.Valid() || !carry.Valid() then Err(InvalidInput)
    else
      var d := Decide(o.policy, m, carry, OverlayFor(o, m.regime));
      Ok(Walk(Next(m, carry, d), Record(EventsBefore(o, w, m.index), m.index, d.action), Some(m.index),
              w.decisions + [d], w.carries + [carry]))
  }

  function WalkOver(o: Options, markets: seq<Market>): Result<Walk, ScheduleError> {
    if markets == [] then Ok(Walk(CASH, [], None, [], []))
    else
      match WalkOver(o, markets[..|markets| - 1])
      case Err(error) => Err(error)
      case Ok(w) => Step(o, w, markets[|markets| - 1])
  }

  /** A position still open at the end is closed on the last prediction. */
  function Closed(w: Walk): seq<Event> {
    if w.carry.long && w.previous.Some? then DropAt(w.events, w.previous.value) + [Event(w.previous.value, false)]
    else w.events
  }

  function Finished(o: Options, w: Walk): seq<Event> {
    if w.previous.None? then Closed(w)
    else ForceBetween(Closed(w), o.boundaries, w.previous.value, w.previous.value + 1 + o.latency, o.latency)
  }

  predicate EventBefore(a: Event, b: Event) {
    a.index < b.index || (a.index == b.index && a.enter && !b.enter)
  }

  predicate NotAfter(a: Event, b: Event) {
    !EventBefore(b, a)
  }

  function SortEvents(events: seq<Event>): seq<Event> {
    Sorting.Sorted(NotAfter, events)
  }

  // ---------------------------------------------------------------- the shape of the event list

  /** Strictly increasing candle indices, none after the limit: what the study strategy's constructor asks for. */
  ghost predicate Ordered(events: seq<Event>, limit: int) {
    && (forall i, j :: 0 <= i < j < |events| ==> events[i].index < events[j].index)
    && (forall i :: 0 <= i < |events| ==> 0 <= events[i].index <= limit)
  }

  /** ENTER, EXIT, ENTER, EXIT, ... */
  ghost predicate Alternates(events: seq<Event>) {
    forall i :: 0 <= i < |events| ==> (events[i].enter <==> i % 2 == 0)
  }

  /** Alternating and in cash at the end: every entry is closed. */
  ghost predicate RoundTrips(events: seq<Event>) {
    Alternates(events) && |events| % 2 == 0
  }

  /** In cash from the last safe decision before the boundary until the boundary itself. */
  ghost predicate Clear(events: seq<Event>, boundary: int, latency: int) {
    exists k :: 0 <= k <= |events| && ClearAt(events, k, boundary, latency)
  }

  ghost predicate ClearAt(events: seq<Event>, k: nat, boundary: int, latency: int) {
    && k <= |events|
    && (k > 0 ==> !events[k - 1].enter)
    && (forall i :: 0 <= i < k ==> events[i].index <= boundary - 2 - latency)
    && (forall i :: k <= i < |events| ==> events[i].index >= boundary)
  }

  lemma {:induction false} KeepUpToIsPrefix(events: seq<Event>, limit: int, top: int)
    requires Ordered(events, top)
    ensures KeepUpTo(events, limit) <= events
    ensures forall i :: 0 <= i < |KeepUpTo(events, limit)| ==> events[i].index <= limit
    ensures forall i :: |KeepUpTo(events, limit)| <= i < |events| ==> events[i].index > limit
  {
    if events != [] {
      KeepUpToIsPrefix(events[..|events| - 1], limit, top);
    }
  }

  lemma {:induction false} DropAtDropsLast(events: seq<Event>, top: int)
    requires Ordered(events, top)
    ensures DropAt(events, top) == if events != [] && Last(events).index == top then events[..|events| - 1] else events
  {
    if events != [] {
      var front := events[..|events| - 1];
      DropAtDropsLast(front, top);
      if front != [] { assert Last(front).index < Last(events).index; }
      assert front + [Last(events)] == events;
    }
  }

  /** The popping and closing half of `ForceCash`, on a list that ends at the safe decision. */
  function CloseAt(kept: seq<Event>, safe: int): seq<Event> {
    var popped := if kept != [] && Last(kept) == Event(safe, true) then kept[..|kept| - 1] else kept;
    if popped != [] && Last(popped).enter then popped + [Event(safe, false)] else popped
  }

  lemma LastTellsParity(events: seq<Event>)
    requires Alternates(events)
    ensures events == [] || !Last(events).enter <==> |events| % 2 == 0
  {
  }

  lemma PopKeepsShape(events: seq<Event>, limit: int)
    requires Ordered(events, limit) && Alternates(events) && events != []
    ensures Ordered(events[..|events| - 1], limit) && Alternates(events[..|events| - 1])
  {
  }

  lemma PushKeepsShape(events: seq<Event>, limit: int, exit: int)
    requires Ordered(events, limit) && Alternates(events) && events != []
    requires Last(events).enter && Last(events).index < exit
    ensures Ordered(events + [Event(exit, false)], exit) && RoundTrips(events + [Event(exit, false)])
  {
    LastTellsParity(events);
    var last := Last(events);
    forall i | 0 <= i < |events| ensures events[i].index < exit && events[i].index >= 0 {
      if i < |events| - 1 { assert events[i].index < last.index; }
    }
  }

  lemma CloseAtIsCash(kept: seq<Event>, safe: int)
    requires Ordered(kept, safe) && Alternates(kept)
    ensures Ordered(CloseAt(kept, safe), safe) && RoundTrips(CloseAt(kept, safe))
  {
    LastTellsParity(kept);
    if kept != [] && Last(kept).enter {
      assert kept[|kept| - 1].index <= safe;
      hide Ordered, Alternates;
      if Last(kept).index == safe {
        PopKeepsShape(kept, safe);
        LastTellsParity(kept[..|kept| - 1]);
      } else {
        PushKeepsShape(kept, safe, safe);
      }
    }
  }

  lemma CloseAtKeepsClear(kept: seq<Event>, k: nat, safe: int, boundary: int, latency: int)
    requires ClearAt(kept, k, boundary, latency)
    requires forall i :: 0 <= i < |kept| ==> kept[i].index <= safe
    ensures ClearAt(CloseAt(kept, safe), k, boundary, latency)
  {
  }

  lemma ForceCashIs(events: seq<Event>, boundary: int, latency: int, top: int)
    requires Ordered(events, top)
    ensures ForceCash(events, boundary, latency)
            == CloseAt(KeepUpTo(events, boundary - 2 - latency), boundary - 2 - latency)
  {
    KeepUpToIsPrefix(events, boundary - 2 - latency, top);
  }

  lemma KeepUpToIsOrdered(events: seq<Event>, limit: int, top: int)
    requires Ordered(events, top)
    ensures Ordered(KeepUpTo(events, limit), limit)
  {
    hide KeepUpTo;
    KeepUpToIsPrefix(events, limit, top);
  }

  /** Forcing cash leaves an alternating list, in cash, with nothing after the safe decision. */
  lemma ForceCashIsCash(events: seq<Event>, boundary: int, latency: int, top: int)
    requires Ordered(events, top) && Alternates(KeepUpTo(events, boundary - 2 - latency))
    ensures Ordered(ForceCash(events, boundary, latency), boundary - 2 - latency)
    ensures RoundTrips(ForceCash(events, boundary, latency))
  {
    KeepUpToIsOrdered(events, boundary - 2 - latency, top);
    ForceCashIs(events, boundary, latency, top);
    hide KeepUpTo, ForceCash, CloseAt, Ordered, Alternates, RoundTrips;
    CloseAtIsCash(KeepUpTo(events, boundary - 2 - latency), boundary - 2 - latency);
  }

  /** Everything kept up to a later safe decision includes what lies before an earlier boundary. */
  lemma PrefixKeepsClear(events: seq<Event>, kept: seq<Event>, k: nat, safe: int, earlier: int, latency: int)
    requires ClearAt(events, k, earlier, latency) && kept <= events && earlier - 2 - latency <= safe
    requires forall i :: |kept| <= i < |events| ==> events[i].index > safe
    ensures ClearAt(kept, k, earlier, latency)
  {
    assert k <= |kept|;
  }

  /** A later boundary's forcing does not disturb an earlier clear boundary. */
  lemma ForceCashKeepsClear(events: seq<Event>, boundary: int, latency: int, top: int, earlier: int)
    requires Ordered(events, top) && earlier < boundary && Clear(events, earlier, latency)
    ensures Clear(ForceCash(events, boundary, latency), earlier, latency)
  {
    var k :| 0 <= k <= |events| && ClearAt(events, k, earlier, latency);
    var safe := boundary - 2 - latency;
    KeepUpToIsPrefix(events, safe, top);
    ForceCashIs(events, boundary, latency, top);
    var kept := KeepUpTo(events, safe);
    PrefixKeepsClear(events, kept, k, safe, earlier, latency);
    CloseAtKeepsClear(kept, k, safe, earlier, latency);
    hide CloseAt, ForceCash, KeepUpTo, ClearAt, Ordered;
    assert ClearAt(ForceCash(events, boundary, latency), k, earlier, latency);
  }

  /** In cash and with no event after the safe decision, forcing changes nothing. */
  lemma ForceAgain(events: seq<Event>, boundary: int, latency: int)
    requires Ordered(events, boundary - 2 - latency) && RoundTrips(events)
    ensures ForceCash(events, boundary, latency) == events
  {
    var safe := boundary - 2 - latency;
    KeepUpToIsPrefix(events, safe, safe);
    assert KeepUpTo(events, safe) == events;
    LastTellsParity(events);
    hide KeepUpTo, Ordered, Alternates;
  }

  // ---------------------------------------------------------------- several boundaries at once

  /** The first boundary in a half-open range. */
  ghost predicate LeastCrossed(boundaries: seq<int>, after: int, upTo: int, i: int) {
    0 <= i < |boundaries| && after < boundaries[i] <= upTo && forall j :: 0 <= j < i ==> boundaries[j] <= after
  }

  ghost predicate Ascending(boundaries: seq<int>) {
    forall i, j :: 0 <= i < j < |boundaries| ==> boundaries[i] < boundaries[j]
  }

  lemma FindLeastCrossed(boundaries: seq<int>, after: int, upTo: int) returns (i: int)
    requires Ascending(boundaries) && Crosses(boundaries, after, upTo)
    ensures LeastCrossed(boundaries, after, upTo, i)
  {
    i := 0;
    while boundaries[i] <= after
      invariant 0 <= i < |boundaries|
      invariant forall j :: 0 <= j < i ==> boundaries[j] <= after
      invariant exists j :: i <= j < |boundaries| && after < boundaries[j] <= upTo
    {
      i := i + 1;
    }
  }

  lemma {:induction false} ForceBetweenNothing(
    events: seq<Event>, boundaries: seq<int>, after: int, upTo: int, latency: int)
    requires forall j :: 0 <= j < |boundaries| ==> !(after < boundaries[j] <= upTo)
    ensures ForceBetween(events, boundaries, after, upTo, latency) == events
  {
    if boundaries != [] {
      ForceBetweenNothing(events, boundaries[..|boundaries| - 1], after, upTo, latency);
    }
  }

  /** Forcing every crossed boundary in turn is forcing the first one: the later ones find nothing to do. */
  lemma {:induction false} ForceBetweenIsFirst(
    events: seq<Event>, boundaries: seq<int>, after: int, upTo: int, latency: int, top: int, first: int)
    requires Ascending(boundaries) && LeastCrossed(boundaries, after, upTo, first)
    requires Ordered(events, top) && Alternates(KeepUpTo(events, boundaries[first] - 2 - latency))
    ensures ForceBetween(events, boundaries, after, upTo, latency) == ForceCash(events, boundaries[first], latency)
  {
    var front := boundaries[..|boundaries| - 1];
    var b := boundaries[|boundaries| - 1];
    if first == |boundaries| - 1 {
      ForceBetweenNothing(events, front, after, upTo, latency);
    } else {
      assert front[first] == boundaries[first];
      ForceBetweenIsFirst(events, front, after, upTo, latency, top, first);
      ForceCashIsCash(events, boundaries[first], latency, top);
      ForceAgain(ForceCash(events, boundaries[first], latency), b, latency);
    }
  }

  // ---------------------------------------------------------------- the invariant of the walk

  /** Prediction indices are strictly increasing candle positions. */
  ghost predicate Increasing(markets: seq<Market>) {
    && (forall i, j :: 0 <= i < j < |markets| ==> markets[i].index < markets[j].index)
    && (forall i :: 0 <= i < |markets| ==> markets[i].index >= 0)
  }

  ghost predicate AllClear(o: Options, events: seq<Event>, upTo: int) {
    forall b :: b in o.boundaries && b <= upTo ==> Clear(events, b, o.latency)
  }

  /** An alternating list, clear at every boundary so far, whose last entry is open exactly while long. */
  ghost predicate Tidy(o: Options, events: seq<Event>, long: bool, last: int, upTo: int) {
    && Ordered(events, last)
    && Alternates(events)
    && (long <==> |events| % 2 == 1)
    && AllClear(o, events, upTo)
  }

  ghost predicate Shaped(o: Options, w: Walk) {
    && (w.previous.None? ==> w.carry == CASH && w.events == [])
    && (w.previous.Some? ==>
          w.previous.value >= 0 && Tidy(o, w.events, w.carry.long, w.previous.value, w.previous.value))
    && Bounded(o.policy, w.carry)
  }

  lemma EmptyIsClear(boundary: int, latency: int)
    ensures Clear([], boundary, latency)
  {
    assert ClearAt([], 0, boundary, latency);
  }

  /** A list in cash, with nothing after the safe decision, is clear. */
  lemma CashIsClear(events: seq<Event>, boundary: int, latency: int)
    requires Ordered(events, boundary - 2 - latency) && RoundTrips(events)
    ensures Clear(events, boundary, latency)
  {
    assert ClearAt(events, |events|, boundary, latency);
  }

  /** An event at or after the boundary leaves it clear. */
  lemma AppendKeepsClear(events: seq<Event>, e: Event, boundary: int, latency: int)
    requires Clear(events, boundary, latency) && e.index >= boundary
    ensures Clear(events + [e], boundary, latency)
  {
    var k :| 0 <= k <= |events| && ClearAt(events, k, boundary, latency);
    assert ClearAt(events + [e], k, boundary, latency);
  }

  /** Dropping a last event at or after the boundary leaves it clear. */
  lemma DropKeepsClear(events: seq<Event>, boundary: int, latency: int)
    requires Clear(events, boundary, latency) && latency >= 0
    requires events != [] && Last(events).index >= boundary
    ensures Clear(events[..|events| - 1], boundary, latency)
  {
    var k :| 0 <= k <= |events| && ClearAt(events, k, boundary, latency);
    assert ClearAt(events[..|events| - 1], k, boundary, latency);
  }

  lemma OrderedWidens(events: seq<Event>, limit: int, limit': int)
    requires limit <= limit'
    ensures Ordered(events, limit) ==> Ordered(events, limit')
  {
  }

  lemma LeastIsFirst(boundaries: seq<int>, after: int, upTo: int, first: int, c: int)
    requires Ascending(boundaries) && LeastCrossed(boundaries, after, upTo, first) && c in boundaries && c > after
    ensures boundaries[first] <= c
  {
    var i :| 0 <= i < |boundaries| && boundaries[i] == c;
  }

  /** After forcing cash before b, every earlier boundary is still clear and every later one is. */
  lemma ForcedIsClear(events: seq<Event>, after: int, b: int, latency: int, c: int)
    requires Ordered(events, after) && after < b && Alternates(KeepUpTo(events, b - 2 - latency))
    requires c >= b || (c <= after && Clear(events, c, latency))
    ensures Clear(ForceCash(events, b, latency), c, latency)
  {
    hide Ordered, Alternates, RoundTrips, KeepUpTo, ForceCash, Clear;
    if c <= after {
      ForceCashKeepsClear(events, b, latency, after, c);
    } else {
      ForceCashIsCash(events, b, latency, after);
      OrderedWidens(ForceCash(events, b, latency), b - 2 - latency, c - 2 - latency);
      CashIsClear(ForceCash(events, b, latency), c, latency);
    }
  }

  /** Crossing boundaries: the list is cut back to cash before the first of them, and all of them are clear. */
  lemma CrossingForcesCash(o: Options, events: seq<Event>, after: int, upTo: int)
    requires o.Valid() && Ordered(events, after) && Crosses(o.boundaries, after, upTo)
    requires forall b :: b in o.boundaries && after < b <= upTo ==> Alternates(KeepUpTo(events, b - 2 - o.latency))
    requires AllClear(o, events, after)
    ensures var forced := ForceBetween(events, o.boundaries, after, upTo, o.latency);
            Ordered(forced, upTo - 2 - o.latency) && RoundTrips(forced) && AllClear(o, forced, upTo)
  {
    hide Ordered, Alternates, RoundTrips, KeepUpTo, ForceCash, ForceBetween, Clear, Crosses;
    var first := FindLeastCrossed(o.boundaries, after, upTo);
    var b := o.boundaries[first];
    assert b in o.boundaries;
    ForceBetweenIsFirst(events, o.boundaries, after, upTo, o.latency, after, first);
    ForceCashIsCash(events, b, o.latency, after);
    var forced := ForceCash(events, b, o.latency);
    OrderedWidens(forced, b - 2 - o.latency, upTo - 2 - o.latency);
    forall c | c in o.boundaries && c <= upTo ensures Clear(forced, c, o.latency) {
      if c > after { LeastIsFirst(o.boundaries, after, upTo, first, c); }
      ForcedIsClear(events, after, b, o.latency, c);
    }
  }

  lemma PrefixAlternates(events: seq<Event>, limit: int, top: int)
    requires Ordered(events, top) && Alternates(events)
    ensures Alternates(KeepUpTo(events, limit))
  {
    KeepUpToIsPrefix(events, limit, top);
  }

  /** Closing a long position before a gap leaves every boundary so far clear. */
  lemma CloseLongIsCash(o: Options, events: seq<Event>, previous: int)
    requires o.latency >= 0 && Tidy(o, events, true, previous, previous) && previous >= 0
    ensures Tidy(o, CloseLong(events, previous), false, previous, previous)
  {
    LastTellsParity(events);
    assert events[|events| - 1].index <= previous;
    hide Ordered, Alternates, Clear;
    if Last(events) == Event(previous, true) {
      PopKeepsShape(events, previous);
    } else {
      PushKeepsShape(events, previous, previous);
    }
    forall b | b in o.boundaries && b <= previous ensures Clear(CloseLong(events, previous), b, o.latency) {
      if Last(events) == Event(previous, true) {
        DropKeepsClear(events, b, o.latency);
      } else {
        AppendKeepsClear(events, Event(previous, false), b, o.latency);
      }
    }
  }

  /** What one more prediction starts from. */
  lemma BeforeStep(o: Options, w: Walk, index: int)
    requires o.Valid() && Shaped(o, w) && index >= 0
    requires w.previous.Some? ==> w.previous.value < index
    ensures Tidy(o, EventsBefore(o, w, index), CarryBefore(o, w, index).long, index - 1, index)
    ensures Bounded(o.policy, CarryBefore(o, w, index))
  {
    hide Clear;
    CashIsBounded(o.policy);
    if w.previous.None? {
      forall b | b in o.boundaries && b <= index ensures Clear([], b, o.latency) { EmptyIsClear(b, o.latency); }
    } else {
      var previous := w.previous.value;
      if Crosses(o.boundaries, previous, index) {
        forall b | b in o.boundaries && previous < b <= index
          ensures Alternates(KeepUpTo(w.events, b - 2 - o.latency))
        {
          PrefixAlternates(w.events, b - 2 - o.latency, previous);
        }
        CrossingForcesCash(o, w.events, previous, index);
      } else {
        if !Contiguous(o, w.previous, index) && w.carry.long { CloseLongIsCash(o, w.events, previous); }
        assert AllClear(o, EventsBefore(o, w, index), index);
      }
    }
  }

  lemma RecordKeepsTidy(o: Options, events: seq<Event>, long: bool, index: int, action: Action, after: bool)
    requires Tidy(o, events, long, index - 1, index) && index >= 0
    requires long <==> action.RemainLong? || action.ExitToCash?
    requires after <==> action.EnterLong? || action.RemainLong?
    ensures Tidy(o, Record(events, index, action), after, index, index)
  {
    hide Clear;
    forall b | b in o.boundaries && b <= index ensures Clear(Record(events, index, action), b, o.latency) {
      if action.EnterLong? || action.ExitToCash? {
        AppendKeepsClear(events, Event(index, action.EnterLong?), b, o.latency);
      }
    }
  }

  /** One prediction keeps the invariant, and fails only on a malformed market row. */
  lemma StepKeeps(o: Options, w: Walk, m: Market)
    requires o.Valid() && Shaped(o, w) && m.index >= 0
    requires w.previous.Some? ==> w.previous.value < m.index
    ensures Step(o, w, m).Ok? <==> m.Valid()
    ensures Step(o, w, m).Ok? ==> Shaped(o, Step(o, w, m).value) && Step(o, w, m).value.previous == Some(m.index)
  {
    hide Decide, Next, EventsBefore, CarryBefore, Tidy;
    BeforeStep(o, w, m.index);
    if m.Valid() {
      var carry := CarryBefore(o, w, m.index);
      var overlay := OverlayFor(o, m.regime);
      DecisionKeepsBounds(o.policy, m, carry, overlay);
      ActionsFollowPosition(o.policy, m, carry, overlay);
      var d := Decide(o.policy, m, carry, overlay);
      RecordKeepsTidy(o, EventsBefore(o, w, m.index), carry.long, m.index, d.action, Next(m, carry, d).long);
    }
  }

  /** For every prediction list: the walk fails only on a malformed row, and its state is well shaped. */
  lemma {:induction false} WalkKeeps(o: Options, markets: seq<Market>)
    requires o.Valid() && Increasing(markets)
    ensures WalkOver(o, markets).Ok? <==> forall m :: m in markets ==> m.Valid()
    ensures WalkOver(o, markets).Ok? ==>
              && Shaped(o, WalkOver(o, markets).value)
              && WalkOver(o, markets).value.previous
                 == if markets == [] then None else Some(markets[|markets| - 1].index)
  {
    hide Shaped, Step, Market.Valid;
    if markets == [] {
      EmptyIsShaped(o);
    } else {
      var front := markets[..|markets| - 1];
      var m := markets[|markets| - 1];
      WalkKeeps(o, front);
      assert markets == front + [m];
      if WalkOver(o, front).Ok? { StepKeeps(o, WalkOver(o, front).value, m); }
    }
  }

  lemma EmptyIsShaped(o: Options)
    ensures Shaped(o, Walk(CASH, [], None, [], []))
  {
    CashIsBounded(o.policy);
  }

  // ---------------------------------------------------------------- the finished schedule

  /** The last prediction opened a position and no boundary is near enough to cut it away. */
  predicate DanglingExit(o: Options, w: Walk) {
    && w.previous.Some?
    && w.events != [] && Last(w.events) == Event(w.previous.value, true)
    && !Crosses(o.boundaries, w.previous.value, w.previous.value + 1 + o.latency)
  }

  /** The list once a position still open on the last prediction is closed there. */
  function CloseOn(events: seq<Event>, last: int): seq<Event>
    requires events != []
  {
    (if Last(events).index == last then events[..|events| - 1] else events) + [Event(last, false)]
  }

  lemma CloseOnShape(events: seq<Event>, last: int)
    requires Ordered(events, last) && Alternates(events) && |events| % 2 == 1 && last >= 0
    ensures Ordered(CloseOn(events, last), last) && !Last(CloseOn(events, last)).enter
    ensures Alternates(CloseOn(events, last)[..|CloseOn(events, last)| - 1])
    ensures RoundTrips(CloseOn(events, last)) <==> Last(events).index != last
  {
    var closed := CloseOn(events, last);
    if Last(events).index == last {
      assert !closed[|closed| - 1].enter && (|closed| - 1) % 2 == 0;
    }
  }

  /** Below its last index an ordered list keeps only its front. */
  lemma FrontAlternates(events: seq<Event>, limit: int, last: int)
    requires events != [] && Ordered(events, last) && limit < Last(events).index
    requires Alternates(events[..|events| - 1])
    ensures Alternates(KeepUpTo(events, limit))
  {
    KeepUpToIsPrefix(events, limit, last);
    assert |KeepUpTo(events, limit)| < |events|;
  }

  lemma CloseOnKeepsClear(o: Options, events: seq<Event>, last: int)
    requires o.Valid() && events != [] && AllClear(o, events, last)
    ensures AllClear(o, CloseOn(events, last), last)
  {
    hide Clear;
    forall b | b in o.boundaries && b <= last ensures Clear(CloseOn(events, last), b, o.latency) {
      if Last(events).index == last {
        DropKeepsClear(events, b, o.latency);
        AppendKeepsClear(events[..|events| - 1], Event(last, false), b, o.latency);
      } else {
        AppendKeepsClear(events, Event(last, false), b, o.latency);
      }
    }
  }

  lemma OpenIsClosed(o: Options, w: Walk)
    requires o.Valid() && Shaped(o, w) && w.previous.Some? && w.carry.long
    ensures var last := w.previous.value;
            w.events != [] && Closed(w) == CloseOn(w.events, last) && Ordered(w.events, last) && Alternates(w.events)
            && |w.events| % 2 == 1 && Last(w.events).enter && last >= 0 && AllClear(o, w.events, last)
  {
    hide Clear, AllClear;
    DropAtDropsLast(w.events, w.previous.value);
  }

  /** Nothing left in the closed list opens a position on or after the last prediction. */
  ghost predicate Closes(o: Options, events: seq<Event>, last: int) {
    && Ordered(events, last) && AllClear(o, events, last)
    && (events != [] ==> !Last(events).enter)
    && (forall b :: b in o.boundaries && b <= last + 1 + o.latency ==> Alternates(KeepUpTo(events, b - 2 - o.latency)))
  }

  lemma LongCloses(o: Options, events: seq<Event>, last: int)
    requires o.Valid() && Ordered(events, last) && Alternates(events) && |events| % 2 == 1 && last >= 0
    requires AllClear(o, events, last)
    ensures Closes(o, CloseOn(events, last), last)
  {
    hide Clear, AllClear;
    CloseOnShape(events, last);
    CloseOnKeepsClear(o, events, last);
    forall b | b in o.boundaries && b <= last + 1 + o.latency
      ensures Alternates(KeepUpTo(CloseOn(events, last), b - 2 - o.latency))
    {
      FrontAlternates(CloseOn(events, last), b - 2 - o.latency, last);
    }
  }

  lemma CashCloses(o: Options, events: seq<Event>, last: int)
    requires Tidy(o, events, false, last, last)
    ensures Closes(o, events, last)
  {
    hide Clear, AllClear;
    forall b | b in o.boundaries && b <= last + 1 + o.latency ensures Alternates(KeepUpTo(events, b - 2 - o.latency)) {
      PrefixAlternates(events, b - 2 - o.latency, last);
    }
  }

  /** Closing on the last prediction: a round-trip list unless the last prediction itself entered. */
  lemma ClosedIs(o: Options, w: Walk)
    requires o.Valid() && Shaped(o, w) && w.previous.Some?
    ensures Closes(o, Closed(w), w.previous.value)
    ensures RoundTrips(Closed(w)) <==> !(w.events != [] && Last(w.events) == Event(w.previous.value, true))
  {
    hide Clear, AllClear, KeepUpTo, DropAt, Closes;
    var last := w.previous.value;
    if w.carry.long {
      OpenIsClosed(o, w);
      LongCloses(o, w.events, last);
      CloseOnShape(w.events, last);
      hide Closed, CloseOn, Shaped, Alternates, Ordered, RoundTrips;
    } else {
      CashCloses(o, w.events, last);
    }
  }

  /**
   For every prediction list: the finished schedule is strictly ordered, in cash around every declared boundary,
   and a word of entry-exit pairs exactly when its last prediction leaves no dangling exit.
   */
  lemma ScheduleIsSafe(o: Options, markets: seq<Market>)
    requires o.Valid() && Increasing(markets) && WalkOver(o, markets).Ok?
    ensures var w := WalkOver(o, markets).value;
            var events := Finished(o, w);
            && Ordered(events, if markets == [] then 0 else markets[|markets| - 1].index)
            && (forall b :: b in o.boundaries ==> Clear(events, b, o.latency))
            && (RoundTrips(events) <==> !DanglingExit(o, w))
  {
    hide Clear;
    WalkKeeps(o, markets);
    var w := WalkOver(o, markets).value;
    if markets == [] {
      forall b | b in o.boundaries ensures Clear([], b, o.latency) { EmptyIsClear(b, o.latency); }
    } else {
      FinishedIsSafe(o, w);
    }
  }

  lemma NearBoundaryCuts(o: Options, closed: seq<Event>, last: int)
    requires o.Valid() && Closes(o, closed, last) && Crosses(o.boundaries, last, last + 1 + o.latency)
    ensures var forced := ForceBetween(closed, o.boundaries, last, last + 1 + o.latency, o.latency);
            Ordered(forced, last) && RoundTrips(forced) && forall b :: b in o.boundaries ==> Clear(forced, b, o.latency)
  {
    hide Clear, KeepUpTo, Alternates, ForceBetween, Crosses;
    CrossingForcesCash(o, closed, last, last + 1 + o.latency);
    var forced := ForceBetween(closed, o.boundaries, last, last + 1 + o.latency, o.latency);
    LastIsExit(forced);
    forall b | b in o.boundaries && b > last + 1 + o.latency ensures Clear(forced, b, o.latency) {
      AfterLastIsClear(forced, last, b, o.latency);
    }
  }

  lemma LastIsExit(events: seq<Event>)
    requires RoundTrips(events)
    ensures events == [] || !Last(events).enter
  {
  }

  lemma FarBoundariesCutNothing(o: Options, closed: seq<Event>, last: int)
    requires o.Valid() && Closes(o, closed, last) && !Crosses(o.boundaries, last, last + 1 + o.latency)
    ensures ForceBetween(closed, o.boundaries, last, last + 1 + o.latency, o.latency) == closed
    ensures forall b :: b in o.boundaries ==> Clear(closed, b, o.latency)
  {
    hide Clear, KeepUpTo, Alternates, ForceBetween;
    ForceBetweenNothing(closed, o.boundaries, last, last + 1 + o.latency, o.latency);
    forall b | b in o.boundaries ensures Clear(closed, b, o.latency) {
      if b > last + 1 + o.latency { AfterLastIsClear(closed, last, b, o.latency); }
    }
  }

  /**
   The dangling exit told from the input: the last row may be entered, and no boundary is near enough to cut it
   away.
   */
  lemma DanglingExitIff(o: Options, markets: seq<Market>)
    requires o.Valid() && Increasing(markets) && WalkOver(o, markets).Ok? && markets != []
    ensures WalkOver(o, markets[..|markets| - 1]).Ok?
    ensures var m := markets[|markets| - 1];
            DanglingExit(o, WalkOver(o, markets).value)
            <==> EntryAllowed(
                   o.policy, m, CarryBefore(o, WalkOver(o, markets[..|markets| - 1]).value, m.index),
                   OverlayFor(o, m.regime))
                 && !Crosses(o.boundaries, m.index, m.index + 1 + o.latency)
  {
    hide Shaped, Decide, EntryAllowed, Crosses, EventsBefore, CarryBefore, Next, AllClear;
    var front, m := markets[..|markets| - 1], markets[|markets| - 1];
    WalkKeeps(o, front);
    var before := WalkOver(o, front).value;
    assert front == [] ==> before.previous.None?;
    assert front != [] ==> front[|front| - 1] == markets[|markets| - 2];
    BeforeStep(o, before, m.index);
    EntersIffAllowed(o.policy, m, CarryBefore(o, before, m.index), OverlayFor(o, m.regime));
  }

  lemma FinishedIsSafe(o: Options, w: Walk)
    requires o.Valid() && Shaped(o, w) && w.previous.Some?
    ensures Ordered(Finished(o, w), w.previous.value)
    ensures forall b :: b in o.boundaries ==> Clear(Finished(o, w), b, o.latency)
    ensures RoundTrips(Finished(o, w)) <==> !DanglingExit(o, w)
  {
    hide Clear, KeepUpTo, RoundTrips, ForceBetween, Crosses, Closed, Shaped, AllClear;
    var last := w.previous.value;
    ClosedIs(o, w);
    if Crosses(o.boundaries, last, last + 1 + o.latency) {
      NearBoundaryCuts(o, Closed(w), last);
    } else {
      FarBoundariesCutNothing(o, Closed(w), last);
    }
  }

  lemma AfterLastIsClear(events: seq<Event>, last: int, boundary: int, latency: int)
    requires Ordered(events, last) && last <= boundary - 2 - latency
    requires events == [] || !Last(events).enter
    ensures Clear(events, boundary, latency)
  {
    assert ClearAt(events, |events|, boundary, latency);
  }

  /** The final `sorted` call changes nothing. */
  lemma {:induction false} SortedAlready(events: seq<Event>, limit: int)
    requires Ordered(events, limit)
    ensures SortEvents(events) == events
  {
    if events != [] {
      SortedAlready(events[1..], limit);
      if |events| > 1 { assert events[1..][0] == events[1]; }
    }
  }

  // ---------------------------------------------------------------- runs of decisions

  predicate Follows(o: Options, markets: seq<Market>, i: int)
    requires 0 < i < |markets|
  {
    Contiguous(o, Some(markets[i - 1].index), markets[i].index)
  }

  /** The state each decision starts from, and the decision it leads to. */
  ghost predicate LinkAt(o: Options, markets: seq<Market>, ds: seq<Decision>, cs: seq<Carry>, i: int)
    requires 0 <= i < |markets| && |ds| == |markets| == |cs|
  {
    && markets[i].Valid() && Bounded(o.policy, cs[i])
    && ds[i] == Decide(o.policy, markets[i], cs[i], OverlayFor(o, markets[i].regime))
    && (i == 0 ==> cs[i] == CASH)
    && (i > 0 && !Follows(o, markets, i) ==> cs[i] == CASH)
    && (i > 0 && Follows(o, markets, i) ==> cs[i - 1].Valid() && cs[i] == Next(markets[i - 1], cs[i - 1], ds[i - 1]))
  }

  ghost predicate IsRun(o: Options, markets: seq<Market>, ds: seq<Decision>, cs: seq<Carry>) {
    && |ds| == |markets| == |cs|
    && (forall i :: 0 <= i < |markets| ==> LinkAt(o, markets, ds, cs, i))
  }

  /** No gap and no boundary between two predictions. */
  ghost predicate Unbroken(o: Options, markets: seq<Market>, i: int, j: int)
    requires 0 <= i <= j < |markets|
  {
    forall t :: i < t <= j ==> Follows(o, markets, t)
  }

  lemma LinkAtExtends(
    o: Options, front: seq<Market>, ds: seq<Decision>, cs: seq<Carry>, m: Market, d: Decision, c: Carry,
    i: int)
    requires 0 <= i < |front| && |ds| == |front| == |cs| && LinkAt(o, front, ds, cs, i)
    ensures LinkAt(o, front + [m], ds + [d], cs + [c], i)
  {
    hide Decide, Next, Bounded, Market.Valid;
    assert i > 0 ==> (Follows(o, front + [m], i) <==> Follows(o, front, i));
  }

  lemma EmptyWalk(o: Options, markets: seq<Market>)
    ensures markets == [] ==> WalkOver(o, markets) == Ok(Walk(CASH, [], None, [], []))
  {
  }

  lemma StepStartsBounded(o: Options, w: Walk, m: Market)
    requires Shaped(o, w)
    ensures Bounded(o.policy, CarryBefore(o, w, m.index))
  {
    CashIsBounded(o.policy);
  }

  lemma {:induction false} CarryIsNext(o: Options, markets: seq<Market>)
    requires markets != [] && WalkOver(o, markets).Ok?
    ensures var w := WalkOver(o, markets).value;
            && |w.decisions| > 0 && |w.carries| > 0
            && w.carries[|w.carries| - 1].Valid()
            && w.carry == Next(markets[|markets| - 1], w.carries[|w.carries| - 1], w.decisions[|w.decisions| - 1])
            && w.previous == Some(markets[|markets| - 1].index)
  {
    hide Decide, Next, EventsBefore, Record, CarryBefore;
    assert WalkOver(o, markets) == Step(o, WalkOver(o, markets[..|markets| - 1]).value, markets[|markets| - 1]);
  }

  lemma StepLinks(o: Options, front: seq<Market>, w: Walk, m: Market)
    requires WalkOver(o, front) == Ok(w) && Step(o, w, m).Ok?
    requires |w.decisions| == |front| == |w.carries|
    requires Bounded(o.policy, CarryBefore(o, w, m.index))
    requires front == [] ==> w.previous.None? && w.carry == CASH
    ensures var after := Step(o, w, m).value;
            LinkAt(o, front + [m], after.decisions, after.carries, |front|)
  {
    hide Decide, Next, EventsBefore, Record;
    if front != [] { CarryIsNext(o, front); }
  }

  lemma StepRuns(o: Options, front: seq<Market>, w: Walk, m: Market)
    requires WalkOver(o, front) == Ok(w) && Step(o, w, m).Ok?
    requires IsRun(o, front, w.decisions, w.carries)
    requires Bounded(o.policy, CarryBefore(o, w, m.index))
    ensures IsRun(o, front + [m], Step(o, w, m).value.decisions, Step(o, w, m).value.carries)
  {
    hide Decide, Next, EventsBefore, Record, Shaped, LinkAt, Carry.Valid, Market.Valid, CarryBefore, Bounded;
    EmptyWalk(o, front);
    StepLinks(o, front, w, m);
    var carry := CarryBefore(o, w, m.index);
    var d := Decide(o.policy, m, carry, OverlayFor(o, m.regime));
    var after := Step(o, w, m).value;
    forall i | 0 <= i < |front| ensures LinkAt(o, front + [m], after.decisions, after.carries, i) {
      LinkAtExtends(o, front, w.decisions, w.carries, m, d, carry, i);
    }
  }

  /** The walk is a run: each decision is taken from the state its predecessor left, or from cash after a break. */
  lemma {:induction false} WalkIsRun(o: Options, markets: seq<Market>)
    requires o.Valid() && Increasing(markets) && WalkOver(o, markets).Ok?
    ensures IsRun(o, markets, WalkOver(o, markets).value.decisions, WalkOver(o, markets).value.carries)
  {
    hide Step, IsRun, Shaped, Bounded;
    if markets == [] {
      EmptyIsRun(o);
    } else {
      var front, m := markets[..|markets| - 1], markets[|markets| - 1];
      WalkIsRun(o, front);
      WalkKeeps(o, front);
      StepStartsBounded(o, WalkOver(o, front).value, m);
      StepRuns(o, front, WalkOver(o, front).value, m);
      assert front + [m] == markets;
    }
  }

  lemma EmptyIsRun(o: Options)
    ensures IsRun(o, [], [], [])
  {
  }

  /** While nothing breaks the run, the decisions after an exit stay in cash for the whole cooldown. */
  lemma {:induction false} CooldownIsServed(
    o: Options, markets: seq<Market>, ds: seq<Decision>, cs: seq<Carry>, i: int, j: int)
    requires IsRun(o, markets, ds, cs) && 0 <= i < j < |markets| && Unbroken(o, markets, i, j)
    requires ds[i].action.ExitToCash? && j - i <= o.policy.cooldown
    ensures ds[j].action.RemainInCash? && !cs[j].long && cs[j].cooldown == o.policy.cooldown - (j - i - 1)
  {
    hide Objections;
    assert LinkAt(o, markets, ds, cs, j) && LinkAt(o, markets, ds, cs, j - 1) && Follows(o, markets, j);
    var m, c, overlay := markets[j - 1], cs[j - 1], OverlayFor(o, markets[j - 1].regime);
    ActionsFollowPosition(o.policy, m, c, overlay);
    ActionsFollowPosition(o.policy, markets[j], cs[j], OverlayFor(o, markets[j].regime));
    if j > i + 1 {
      CooldownIsServed(o, markets, ds, cs, i, j - 1);
      DecisionKeepsBounds(o.policy, m, c, overlay);
    }
  }

  /** After an exit, and while nothing but cash follows: the cooldown counts down, and any break ends it. */
  lemma {:induction false} CashAfterAnExit(
    o: Options, markets: seq<Market>, ds: seq<Decision>, cs: seq<Carry>, i: int, j: int)
    requires IsRun(o, markets, ds, cs) && 0 <= i < j < |markets|
    requires ds[i].action.ExitToCash? && forall t :: i < t < j ==> ds[t].action.RemainInCash?
    ensures cs[j] == CASH.(cooldown :=
      if Unbroken(o, markets, i, j) && j - i <= o.policy.cooldown then o.policy.cooldown - (j - i - 1) else 0)
    decreases j
  {
    hide Objections;
    assert LinkAt(o, markets, ds, cs, j) && LinkAt(o, markets, ds, cs, j - 1);
    ActionsFollowPosition(o.policy, markets[j - 1], cs[j - 1], OverlayFor(o, markets[j - 1].regime));
    if j > i + 1 {
      CashAfterAnExit(o, markets, ds, cs, i, j - 1);
      assert ds[j - 1].action.RemainInCash?;
      CashCountsDown(o.policy, markets[j - 1], cs[j - 1], OverlayFor(o, markets[j - 1].regime));
    }
    assert Unbroken(o, markets, i, j) <==> (j > i + 1 ==> Unbroken(o, markets, i, j - 1)) && Follows(o, markets, j);
  }

  lemma CashCountsDown(policy: ValidPolicy, m: Market, c: Carry, overlay: Option<Overlay>)
    requires Bounded(policy, c) && m.Valid() && !c.long && Decide(policy, m, c, overlay).action.RemainInCash?
    ensures Next(m, c, Decide(policy, m, c, overlay)) == c.(cooldown := if c.cooldown > 0 then c.cooldown - 1 else 0)
  {
    hide Objections;
    DecisionKeepsBounds(policy, m, c, overlay);
  }

  /**
   After an exit, and with only cash in between, an entry happens exactly when entry is allowed from plain cash and
   either the cooldown is over or a gap or boundary since the exit has ended it. So the cooldown holds if and only
   if nothing breaks the run inside it.
   */
  lemma EntryAfterAnExitIff(o: Options, markets: seq<Market>, ds: seq<Decision>, cs: seq<Carry>, i: int, j: int)
    requires IsRun(o, markets, ds, cs) && 0 <= i < j < |markets|
    requires ds[i].action.ExitToCash? && forall t :: i < t < j ==> ds[t].action.RemainInCash?
    ensures ds[j].action.EnterLong?
            <==> (j - i > o.policy.cooldown || !Unbroken(o, markets, i, j))
                 && EntryAllowed(o.policy, markets[j], CASH, OverlayFor(o, markets[j].regime))
  {
    CashAfterAnExit(o, markets, ds, cs, i, j);
    assert LinkAt(o, markets, ds, cs, j);
    EntersIffAllowed(o.policy, markets[j], cs[j], OverlayFor(o, markets[j].regime));
    hide Unbroken, Decide;
  }

  /** A gap or a boundary forgets the cooldown: the next decision starts from cash with none left. */
  lemma BreakForgetsCooldown(o: Options, markets: seq<Market>, ds: seq<Decision>, cs: seq<Carry>, j: int)
    requires IsRun(o, markets, ds, cs) && 0 < j < |markets| && !Follows(o, markets, j)
    ensures ds[j].action.EnterLong? <==> EntryAllowed(o.policy, markets[j], CASH, OverlayFor(o, markets[j].regime))
  {
    assert LinkAt(o, markets, ds, cs, j);
    EntersIffAllowed(o.policy, markets[j], CASH, OverlayFor(o, markets[j].regime));
  }

  function HighestClose(markets: seq<Market>, e: int, j: int): real
    requires 0 <= e < j <= |markets|
    decreases j
  {
    if j == e + 1 then markets[e].close else Max(HighestClose(markets, e, j - 1), markets[j - 1].close)
  }

  /** The decisions strictly between an entry and a later prediction all stay long. */
  ghost predicate Holding(ds: seq<Decision>, e: int, j: int)
    requires 0 <= e < j <= |ds|
  {
    ds[e].action.EnterLong? && forall t :: e < t < j ==> ds[t].action.RemainLong?
  }

  /** Along an unbroken hold: the age, the entry price and the highest close are exactly those of the episode. */
  lemma {:induction false} HoldCarriesTheEpisode(
    o: Options, markets: seq<Market>, ds: seq<Decision>, cs: seq<Carry>, e: int, j: int)
    requires IsRun(o, markets, ds, cs) && 0 <= e < j < |markets| && Unbroken(o, markets, e, j) && Holding(ds, e, j)
    ensures cs[j].long && cs[j].holdAge == j - e - 1 && cs[j].cooldown == 0
    ensures cs[j].entryPrice == Some(markets[e].close) && cs[j].highestClose == Some(HighestClose(markets, e, j))
    ensures cs[j].specialist == Some(VoiceOf(markets[e]).specialist)
  {
    hide Objections;
    assert LinkAt(o, markets, ds, cs, j) && LinkAt(o, markets, ds, cs, j - 1) && Follows(o, markets, j);
    var m, c, overlay := markets[j - 1], cs[j - 1], OverlayFor(o, markets[j - 1].regime);
    ActionsFollowPosition(o.policy, m, c, overlay);
    if j > e + 1 {
      HoldCarriesTheEpisode(o, markets, ds, cs, e, j - 1);
      assert ds[j - 1].action.RemainLong?;
      DecisionKeepsBounds(o.policy, m, c, overlay);
    } else {
      EntersIffAllowed(o.policy, m, c, overlay);
    }
  }

  /** No unbroken hold outlasts the policy: the decision `maximumHold + 1` candles after the entry must exit. */
  lemma HoldsAreBounded(o: Options, markets: seq<Market>, ds: seq<Decision>, cs: seq<Carry>, e: int, j: int)
    requires IsRun(o, markets, ds, cs) && 0 <= e < j < |markets| && Unbroken(o, markets, e, j) && Holding(ds, e, j)
    ensures j - e <= o.policy.maximumHold + 1
    ensures j - e == o.policy.maximumHold + 1 ==> ds[j].action.ExitToCash?
  {
    hide Objections;
    HoldCarriesTheEpisode(o, markets, ds, cs, e, j);
    assert LinkAt(o, markets, ds, cs, j);
  }

  /** Along an unbroken hold the trailing stop never falls. */
  lemma {:induction false} StopNeverFalls(
    o: Options, markets: seq<Market>, ds: seq<Decision>, cs: seq<Carry>, e: int, i: int, j: int)
    requires IsRun(o, markets, ds, cs) && 0 <= e < i <= j < |markets| && Unbroken(o, markets, e, j) && Holding(ds, e, j)
    ensures cs[i].stop.Some? && cs[j].stop.Some? && cs[i].stop.value <= cs[j].stop.value
    decreases j
  {
    hide Objections;
    HoldCarriesTheEpisode(o, markets, ds, cs, e, i);
    if i < j {
      StopNeverFalls(o, markets, ds, cs, e, i, j - 1);
      HoldCarriesTheEpisode(o, markets, ds, cs, e, j - 1);
      HoldCarriesTheEpisode(o, markets, ds, cs, e, j);
      assert LinkAt(o, markets, ds, cs, j) && LinkAt(o, markets, ds, cs, j - 1) && Follows(o, markets, j);
      DecisionKeepsBounds(o.policy, markets[j - 1], cs[j - 1], OverlayFor(o, markets[j - 1].regime));
    } else {
      assert LinkAt(o, markets, ds, cs, i);
    }
  }

  // ---------------------------------------------------------------- study variants

  /** The three controls of a study: predictions one row late, mirrored, or pulled half way to even odds. */
  datatype Variant = Variant(delayed: bool, inverted: bool, ablated: bool)

  function Mirrored(v: Variant, probability: real): real {
    if v.inverted then 1.0 - probability else probability
  }

  function Blunted(v: Variant, probability: real): real {
    if v.ablated then (probability + 0.5) / 2.0 else probability
  }

  /** The row whose predictions a decision uses; its candle stays its own. */
  function SourceOf(o: Options, v: Variant, rows: seq<Market>, i: nat): Market
    requires i < |rows|
  {
    if v.delayed && i > 0 && Contiguous(o, Some(rows[i - 1].index), rows[i].index) then rows[i - 1] else rows[i]
  }

  function Sourced(o: Options, v: Variant, rows: seq<Market>, i: nat): Market
    requires i < |rows|
  {
    var source := SourceOf(o, v, rows, i);
    rows[i].(regime := source.regime,
             trendProbability := Blunted(v, Mirrored(v, source.trendProbability)),
             meanProbability := Blunted(v, Mirrored(v, source.meanProbability)),
             trendExpected := if v.inverted then -source.trendExpected else source.trendExpected,
             meanExpected := if v.inverted then -source.meanExpected else source.meanExpected)
  }

  function Sources(o: Options, v: Variant, rows: seq<Market>): (markets: seq<Market>)
    ensures |markets| == |rows| && forall i :: 0 <= i < |rows| ==> markets[i] == Sourced(o, v, rows, i)
  {
    seq(|rows|, i requires 0 <= i < |rows| => Sourced(o, v, rows, i))
  }

  /** A variant keeps the indices and turns valid rows into valid rows; without one the rows are the input. */
  lemma SourcesAreRows(o: Options, v: Variant, rows: seq<Market>)
    ensures Increasing(rows) ==> Increasing(Sources(o, v, rows))
    ensures (forall m :: m in rows ==> m.Valid()) ==> forall m :: m in Sources(o, v, rows) ==> m.Valid()
    ensures v == Variant(false, false, false) ==> Sources(o, v, rows) == rows
  {
    var markets := Sources(o, v, rows);
    forall i | 0 <= i < |rows| ensures markets[i].index == rows[i].index {}
    if forall m :: m in rows ==> m.Valid() {
      forall i | 0 <= i < |rows| ensures markets[i].Valid() {
        assert rows[i] in rows && SourceOf(o, v, rows, i) in rows;
      }
    }
  }

  /**
   Every variant moves a probability around one half: inverting mirrors it, ablating halves its distance. Delaying
   takes the prediction before, if it is contiguous; the candle stays its own.
   */
  lemma VariantsMoveAroundHalf(o: Options, v: Variant, rows: seq<Market>, i: nat)
    requires i < |rows|
    ensures var delayed := v.delayed && i > 0 && rows[i].index == rows[i - 1].index + 1
                           && forall b :: b in o.boundaries ==> b != rows[i].index;
            var source := rows[if delayed then i - 1 else i];
            var sign, scale := if v.inverted then -1.0 else 1.0, if v.ablated then 0.5 else 1.0;
            var m := Sources(o, v, rows)[i];
            && m.trendProbability - 0.5 == sign * scale * (source.trendProbability - 0.5)
            && m.meanProbability - 0.5 == sign * scale * (source.meanProbability - 0.5)
            && m.trendExpected == sign * source.trendExpected && m.meanExpected == sign * source.meanExpected
            && m.regime == source.regime
            && m == rows[i].(regime := m.regime, trendProbability := m.trendProbability,
                             meanProbability := m.meanProbability, trendExpected := m.trendExpected,
                             meanExpected := m.meanExpected)
  {
    if i > 0 { ContiguousIffNext(o, rows[i - 1].index, rows[i].index); }
    hide Contiguous;
  }

  lemma ContiguousIffNext(o: Options, previous: int, index: int)
    ensures Contiguous(o, Some(previous), index) <==>
              index == previous + 1 && forall b :: b in o.boundaries ==> b != index
  {
    if index in o.boundaries {
      var i :| 0 <= i < |o.boundaries| && o.boundaries[i] == index;
      assert index == previous + 1 ==> previous < o.boundaries[i] <= index;
    } else {
      forall i | 0 <= i < |o.boundaries| ensures o.boundaries[i] != index { assert o.boundaries[i] in o.boundaries; }
    }
  }

  // ---------------------------------------------------------------- the loop

  method CandidateEvents(o: Options, v: Variant, rows: seq<Market>) returns (r: Result<seq<Event>, ScheduleError>)
    ensures !o.Valid() ==> r == Err(InvalidOptions)
    ensures o.Valid() && WalkOver(o, Sources(o, v, rows)).Err? ==> r == Err(InvalidInput)
    ensures o.Valid() && WalkOver(o, Sources(o, v, rows)).Ok? ==>
              r == Ok(SortEvents(Finished(o, WalkOver(o, Sources(o, v, rows)).value)))
    ensures o.Valid() && Increasing(rows) ==> (r.Ok? <==> forall m :: m in Sources(o, v, rows) ==> m.Valid())
    ensures r.Ok? && Increasing(rows) ==>
              && Ordered(r.value, if rows == [] then 0 else rows[|rows| - 1].index)
              && (forall b :: b in o.boundaries ==> Clear(r.value, b, o.latency))
              && (RoundTrips(r.value) <==> !DanglingExit(o, WalkOver(o, Sources(o, v, rows)).value))
  {
    hide Step, Finished, Clear, RoundTrips, Ordered, Increasing, DanglingExit, Market.Valid, Sourced;
    if !o.Valid() { return Err(InvalidOptions); }
    ghost var markets := Sources(o, v, rows);
    SourcesAreRows(o, v, rows);
    var w := Walk(CASH, [], None, [], []);
    var position := 0;
    while position < |rows|
      invariant 0 <= position <= |rows|
      invariant WalkOver(o, markets[..position]) == Ok(w)
    {
      var source := Sourced(o, v, rows, position);
      var step := Step(o, w, source);
      assert markets[position] == source && markets[..position + 1][..position] == markets[..position];
      if step.Err? {
        ErrorsStay(o, markets, position + 1);
        if Increasing(rows) { WalkKeeps(o, markets); }
        return Err(InvalidInput);
      }
      w := step.value;
      position := position + 1;
    }
    assert markets[..position] == markets;
    var events := Finished(o, w);
    ghost var last := if markets == [] then 0 else markets[|markets| - 1].index;
    if Increasing(rows) {
      WalkKeeps(o, markets);
      ScheduleIsSafe(o, markets);
      SortedAlready(events, last);
      LastIndexIs(o, v, rows);
    }
    return Ok(SortEvents(events));
  }

  lemma LastIndexIs(o: Options, v: Variant, rows: seq<Market>)
    ensures rows != [] ==> Sources(o, v, rows)[|rows| - 1].index == rows[|rows| - 1].index
  {
  }

  lemma {:induction false} ErrorsStay(o: Options, markets: seq<Market>, n: nat)
    requires n <= |markets| && WalkOver(o, markets[..n]).Err?
    ensures WalkOver(o, markets).Err?
  {
    if n == |markets| {
      assert markets[..n] == markets;
    } else {
      assert markets[..|markets| - 1][..n] == markets[..n];
      ErrorsStay(o, markets[..|markets| - 1], n);
    }
  }

  // ---------------------------------------------------------------- two inputs that show the exceptions are real

  const STRICT: ValidPolicy := Policy(0.0, 0.6, 0.55, 0.4, 0.0, 1.0, 1.0, 1.0, 1, 10, 5, 0)
  const PLAIN := Options(STRICT, None, false, [], 0)

  function Row(index: int, regime: Regime): Market {
    Market.Market(index, regime, 0.9, 1.0, 0.9, 1.0, 100.0, 100.0, 1.0, false, 0.0)
  }

  /** Entering on the last prediction leaves a schedule whose one event closes a position never opened. */
  lemma DanglingExitExists()
    ensures PLAIN.Valid() && Increasing([Row(0, Trending)]) && WalkOver(PLAIN, [Row(0, Trending)]).Ok?
    ensures DanglingExit(PLAIN, WalkOver(PLAIN, [Row(0, Trending)]).value)
    ensures Finished(PLAIN, WalkOver(PLAIN, [Row(0, Trending)]).value) == [Event(0, false)]
  {
    var w := Walk(CASH, [], None, [], []);
    assert [Row(0, Trending)][..0] == [];
    assert WalkOver(PLAIN, [Row(0, Trending)]) == Step(PLAIN, w, Row(0, Trending));
    var after := Step(PLAIN, w, Row(0, Trending)).value;
    assert after.events == [Event(0, true)];
    assert DropAt(after.events, 0) == [];
  }

  lemma PlainStep(w: Walk, m: Market, d: Decision)
    requires m.Valid() && CarryBefore(PLAIN, w, m.index).Valid()
    requires d == Decide(STRICT, m, CarryBefore(PLAIN, w, m.index), None)
    ensures Step(PLAIN, w, m) == Ok(Walk(Next(m, CarryBefore(PLAIN, w, m.index), d),
                                         Record(EventsBefore(PLAIN, w, m.index), m.index, d.action), Some(m.index),
                                         w.decisions + [d], w.carries + [CarryBefore(PLAIN, w, m.index)]))
  {
  }

  const GAPPED: seq<Market> := [Row(0, Trending), Row(1, Unstable), Row(3, Trending), Row(4, Trending)]

  /** The state while long since a row, seen from the next one. */
  function Open(holdAge: int): Carry {
    Carry(true, Some(Trend), holdAge, 0, 0, Some(100.0), Some(100.0), Some(99.0))
  }

  lemma GappedDecisions()
    ensures var entry, exit := Entry(STRICT, Row(0, Trending)), Exit(STRICT, Open(0), 99.0, 99.0, UnstableRegime);
            && Decide(STRICT, Row(0, Trending), CASH, None) == Decide(STRICT, Row(3, Trending), CASH, None) == entry
            && Next(Row(0, Trending), CASH, entry) == Next(Row(3, Trending), CASH, entry) == Open(0)
            && Decide(STRICT, Row(1, Unstable), Open(0), None) == exit
            && Decide(STRICT, Row(4, Trending), Open(0), None) == Hold(Open(0), 0, 99.0, 99.0, MinimumHold)
            && Next(Row(4, Trending), Open(0), Hold(Open(0), 0, 99.0, 99.0, MinimumHold)) == Open(1)
  {
  }

  lemma PrefixWalk(markets: seq<Market>, m: Market, w: Walk)
    requires WalkOver(PLAIN, markets) == Ok(w)
    ensures WalkOver(PLAIN, markets + [m]) == Step(PLAIN, w, m)
  {
    assert (markets + [m])[..|markets|] == markets;
  }

  /** The four walks, row by row. */
  lemma FirstRow()
    ensures WalkOver(PLAIN, GAPPED[..1])
            == Ok(Walk(Open(0), [Event(0, true)], Some(0), [Entry(STRICT, GAPPED[0])], [CASH]))
  {
    var start := Walk(CASH, [], None, [], []);
    GappedDecisions();
    PrefixWalk([], GAPPED[0], start);
    PlainStep(start, GAPPED[0], Entry(STRICT, GAPPED[0]));
    assert [] + [GAPPED[0]] == GAPPED[..1];
    var after := Step(PLAIN, start, GAPPED[0]).value;
    assert after.events == [Event(0, true)] && after.decisions == [Entry(STRICT, GAPPED[0])] && after.carries == [CASH];
  }

  function AfterExit(): Walk {
    Walk(CASH.(cooldown := 5), [Event(0, true), Event(1, false)], Some(1),
         [Entry(STRICT, GAPPED[0]), Exit(STRICT, Open(0), 99.0, 99.0, UnstableRegime)], [CASH, Open(0)])
  }

  lemma SecondRow()
    ensures WalkOver(PLAIN, GAPPED[..2]) == Ok(AfterExit())
  {
    hide WalkOver, Decide;
    FirstRow();
    GappedDecisions();
    var one := WalkOver(PLAIN, GAPPED[..1]).value;
    PrefixWalk(GAPPED[..1], GAPPED[1], one);
    PlainStep(one, GAPPED[1], Exit(STRICT, Open(0), 99.0, 99.0, UnstableRegime));
    assert GAPPED[..1] + [GAPPED[1]] == GAPPED[..2];
    var after := Step(PLAIN, one, GAPPED[1]).value;
    assert after.events == AfterExit().events && after.decisions == AfterExit().decisions
        && after.carries == AfterExit().carries;
  }

  function AfterReentry(): Walk {
    Walk(Open(0), AfterExit().events + [Event(3, true)], Some(3),
         AfterExit().decisions + [Entry(STRICT, GAPPED[2])], AfterExit().carries + [CASH])
  }

  lemma ThirdRow()
    ensures WalkOver(PLAIN, GAPPED[..3]) == Ok(AfterReentry())
  {
    hide WalkOver, Decide;
    SecondRow();
    GappedDecisions();
    PrefixWalk(GAPPED[..2], GAPPED[2], AfterExit());
    PlainStep(AfterExit(), GAPPED[2], Entry(STRICT, GAPPED[2]));
    assert GAPPED[..2] + [GAPPED[2]] == GAPPED[..3];
  }

  lemma GappedWalk()
    ensures WalkOver(PLAIN, GAPPED)
            == Ok(Walk(Open(1), AfterReentry().events, Some(4),
                       AfterReentry().decisions + [Hold(Open(0), 0, 99.0, 99.0, MinimumHold)],
                       AfterReentry().carries + [Open(0)]))
  {
    hide WalkOver, Decide;
    ThirdRow();
    GappedDecisions();
    PrefixWalk(GAPPED[..3], GAPPED[3], AfterReentry());
    PlainStep(AfterReentry(), GAPPED[3], Hold(Open(0), 0, 99.0, 99.0, MinimumHold));
    assert GAPPED[..3] + [GAPPED[3]] == GAPPED;
  }

  lemma ReentryIsClosed(w: Walk)
    requires w.carry.long && w.events == [Event(0, true), Event(1, false), Event(3, true)] && w.previous == Some(4)
    ensures Finished(PLAIN, w) == [Event(0, true), Event(1, false), Event(3, true), Event(4, false)]
  {
    assert Ordered(w.events, 4);
    DropAtDropsLast(w.events, 4);
    ForceBetweenNothing(Closed(w), PLAIN.boundaries, 4, 5, 0);
  }

  /** Across a gap an entry follows an exit well inside the cooldown, and the finished schedule keeps it. */
  lemma CooldownSkippedAcrossAGap()
    ensures PLAIN.Valid() && Increasing(GAPPED) && WalkOver(PLAIN, GAPPED).Ok?
    ensures Finished(PLAIN, WalkOver(PLAIN, GAPPED).value)
            == [Event(0, true), Event(1, false), Event(3, true), Event(4, false)]
    ensures |WalkOver(PLAIN, GAPPED).value.decisions| == 4
            && WalkOver(PLAIN, GAPPED).value.decisions[1].action.ExitToCash?
            && WalkOver(PLAIN, GAPPED).value.decisions[2].action.EnterLong?
            && GAPPED[2].index - GAPPED[1].index <= PLAIN.policy.cooldown
  {
    hide WalkOver, Finished, Closed;
    GappedWalk();
    var w := WalkOver(PLAIN, GAPPED).value;
    assert w.events == [Event(0, true), Event(1, false), Event(3, true)];
    ReentryIsClosed(w);
  }
}
