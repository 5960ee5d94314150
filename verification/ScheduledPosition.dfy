/**
 What the finished schedule says at every prediction: long exactly where the arbiter is, except where a gap, the end or
 a boundary ahead forces cash.
 */
module ScheduledPosition {
  import opened Wrappers
  import opened Domain
  import opened Arbitration
  import opened CandidateSchedule

  /** Long after the decision at candle `x`: the last event up to it is an entry. */
  predicate LongAt(events: seq<Event>, x: int) {
    if events == [] then false
    else if Last(events).index <= x then Last(events).enter
    else LongAt(events[..|events| - 1], x)
  }

  predicate HoldsAfter(d: Decision) {
    d.action.EnterLong? || d.action.RemainLong?
  }

  lemma OneMore(events: seq<Event>, e: Event, x: int)
    ensures LongAt(events + [e], x) == if e.index <= x then e.enter else LongAt(events, x)
  {
    assert (events + [e])[..|events|] == events;
  }

  /** From its last event on, an alternating list is long exactly when its length is odd. */
  lemma AtTheEnd(events: seq<Event>, last: int, x: int)
    requires Ordered(events, last) && Alternates(events) && last <= x
    ensures LongAt(events, x) <==> |events| % 2 == 1
  {
    if events != [] { assert events[|events| - 1].index <= last; }
  }

  lemma {:induction false} KeptReads(events: seq<Event>, limit: int, x: int)
    requires x <= limit
    ensures LongAt(KeepUpTo(events, limit), x) == LongAt(events, x)
  {
    if events != [] {
      var front, last := events[..|events| - 1], events[|events| - 1];
      KeptReads(front, limit, x);
      if last.index <= limit {
        OneMore(KeepUpTo(front, limit), last, x);
      } else {
        assert KeepUpTo(front, limit) + [] == KeepUpTo(front, limit);
      }
    }
  }

  lemma FrontOf(events: seq<Event>, limit: int)
    requires events != [] && Ordered(events, limit) && Alternates(events)
    ensures var front := events[..|events| - 1];
            && Ordered(front, Last(events).index - 1) && Alternates(front) && events == front + [Last(events)]
            && Last(events).index <= limit
  {
  }

  /** What closing at the safe decision does to an alternating list. */
  lemma CloseAtIs(kept: seq<Event>, safe: int)
    requires Ordered(kept, safe) && Alternates(kept)
    ensures kept == [] || !Last(kept).enter ==> CloseAt(kept, safe) == kept
    ensures kept != [] && Last(kept).enter ==>
              CloseAt(kept, safe)
              == if Last(kept).index == safe then kept[..|kept| - 1] else kept + [Event(safe, false)]
  {
    if kept != [] && Last(kept).enter {
      FrontOf(kept, safe);
      LastTellsParity(kept);
      LastTellsParity(kept[..|kept| - 1]);
    }
    hide Ordered, Alternates;
  }

  /** Closing at the safe decision cuts the position there and changes nothing before. */
  lemma ClosedAtReads(kept: seq<Event>, safe: int, x: int)
    requires Ordered(kept, safe) && Alternates(kept)
    ensures LongAt(CloseAt(kept, safe), x) <==> x < safe && LongAt(kept, x)
  {
    hide Ordered, Alternates;
    CloseAtIs(kept, safe);
    LastTellsParity(kept);
    if safe <= x { AtTheEnd(kept, safe, x); }
    if kept != [] && Last(kept).enter {
      var front, last := kept[..|kept| - 1], Last(kept);
      FrontOf(kept, safe);
      OneMore(front, last, x);
      OneMore(kept, Event(safe, false), x);
      if last.index == safe && safe <= x { AtTheEnd(front, safe - 1, x); }
    }
    hide LongAt, CloseAt;
  }

  lemma ForcedReads(events: seq<Event>, boundary: int, latency: int, top: int, x: int)
    requires Ordered(events, top) && Alternates(KeepUpTo(events, boundary - 2 - latency))
    ensures LongAt(ForceCash(events, boundary, latency), x) <==> x < boundary - 2 - latency && LongAt(events, x)
  {
    var safe := boundary - 2 - latency;
    ForceCashIs(events, boundary, latency, top);
    KeepUpToIsOrdered(events, safe, top);
    ClosedAtReads(KeepUpTo(events, safe), safe, x);
    if x <= safe { KeptReads(events, safe, x); }
    hide Ordered, Alternates, ForceCash, CloseAt, KeepUpTo, LongAt;
  }

  /** No boundary of the range asks for cash by candle `x`. */
  ghost predicate Spared(boundaries: seq<int>, after: int, upTo: int, latency: int, x: int) {
    forall b :: b in boundaries && after < b <= upTo ==> x < b - 2 - latency
  }

  lemma ForcedBetweenReads(events: seq<Event>, boundaries: seq<int>, after: int, upTo: int, latency: int, x: int)
    requires Ascending(boundaries) && Ordered(events, after)
    requires forall b :: b in boundaries && after < b <= upTo ==> Alternates(KeepUpTo(events, b - 2 - latency))
    ensures LongAt(ForceBetween(events, boundaries, after, upTo, latency), x) <==>
              LongAt(events, x) && Spared(boundaries, after, upTo, latency, x)
  {
    hide Ordered, Alternates, KeepUpTo, ForceBetween, ForceCash, LongAt;
    if Crosses(boundaries, after, upTo) {
      var first := FindLeastCrossed(boundaries, after, upTo);
      var b := boundaries[first];
      assert b in boundaries;
      ForceBetweenIsFirst(events, boundaries, after, upTo, latency, after, first);
      ForcedReads(events, b, latency, after, x);
      forall c | c in boundaries && after < c <= upTo ensures b <= c {
        LeastIsFirst(boundaries, after, upTo, first, c);
      }
    } else {
      forall j | 0 <= j < |boundaries| ensures !(after < boundaries[j] <= upTo) {}
      ForceBetweenNothing(events, boundaries, after, upTo, latency);
    }
  }

  lemma ClosedLongReads(o: Options, events: seq<Event>, previous: int, x: int)
    requires Tidy(o, events, true, previous, previous)
    ensures LongAt(CloseLong(events, previous), x) <==> x < previous && LongAt(events, x)
  {
    var front, last := events[..|events| - 1], Last(events);
    FrontOf(events, previous);
    OneMore(front, last, x);
    OneMore(events, Event(previous, false), x);
    if previous <= x { AtTheEnd(front, last.index - 1, x); }
    hide Ordered, Alternates, AllClear;
  }

  // ---------------------------------------------------------------- the walk

  /** A gap that crosses no boundary. */
  predicate Gap(o: Options, from: int, next: int) {
    next != from + 1 && !Crosses(o.boundaries, from, next)
  }

  /** What comes before a prediction changes the past exactly at a gap and ahead of crossed boundaries. */
  lemma BeforeReads(o: Options, w: Walk, index: int, x: int)
    requires o.Valid() && Shaped(o, w) && w.previous.Some? && w.previous.value < index && x <= w.previous.value
    ensures LongAt(EventsBefore(o, w, index), x) <==>
              && LongAt(w.events, x)
              && !(x == w.previous.value && Gap(o, x, index))
              && Spared(o.boundaries, w.previous.value, index, o.latency, x)
  {
    hide Clear, AllClear, LongAt, ForceBetween, KeepUpTo, CloseLong;
    var previous := w.previous.value;
    if Crosses(o.boundaries, previous, index) {
      forall b | b in o.boundaries && previous < b <= index ensures Alternates(KeepUpTo(w.events, b - 2 - o.latency)) {
        PrefixAlternates(w.events, b - 2 - o.latency, previous);
      }
      ForcedBetweenReads(w.events, o.boundaries, previous, index, o.latency, x);
    } else {
      NothingCrossed(o.boundaries, previous, index, o.latency, x);
      AtTheEnd(w.events, previous, previous);
      if w.carry.long { ClosedLongReads(o, w.events, previous, x); }
    }
  }

  lemma NothingCrossed(boundaries: seq<int>, after: int, upTo: int, latency: int, x: int)
    requires !Crosses(boundaries, after, upTo)
    ensures Spared(boundaries, after, upTo, latency, x)
  {
  }

  /** A boundary that has been crossed asks for cash at candle `x`. */
  ghost predicate Near(o: Options, x: int, upTo: int) {
    exists b :: b in o.boundaries && b <= upTo && b - 2 - o.latency <= x < b
  }

  lemma NearGrows(o: Options, x: int, from: int, upTo: int)
    requires x <= from <= upTo
    ensures Near(o, x, upTo) <==> Near(o, x, from) || !Spared(o.boundaries, from, upTo, o.latency, x)
  {
    if !Spared(o.boundaries, from, upTo, o.latency, x) {
      var b :| b in o.boundaries && from < b <= upTo && !(x < b - 2 - o.latency);
      assert Near(o, x, upTo);
    }
    if Near(o, x, upTo) {
      var b :| b in o.boundaries && b <= upTo && b - 2 - o.latency <= x < b;
      if b > from { assert !Spared(o.boundaries, from, upTo, o.latency, x); }
    }
  }

  /** After the walk so far, the events are long at row `i` exactly when its decision is, and nothing has cut it. */
  ghost predicate Follows(o: Options, markets: seq<Market>, w: Walk, i: int)
    requires 0 <= i < |markets| == |w.decisions|
  {
    LongAt(w.events, markets[i].index) <==>
      && HoldsAfter(w.decisions[i])
      && !(i + 1 < |markets| && Gap(o, markets[i].index, markets[i + 1].index))
      && !Near(o, markets[i].index, markets[|markets| - 1].index)
  }

  lemma StepFollows(o: Options, front: seq<Market>, m: Market, w: Walk, i: int)
    requires o.Valid() && Shaped(o, w) && Increasing(front + [m])
    requires |front| == |w.decisions| && 0 <= i < |front| && w.previous == Some(front[|front| - 1].index)
    requires Step(o, w, m).Ok? && Follows(o, front, w, i)
    ensures |Step(o, w, m).value.decisions| == |front| + 1
    ensures Follows(o, front + [m], Step(o, w, m).value, i)
  {
    var markets := front + [m];
    var x, last := front[i].index, front[|front| - 1].index;
    assert markets[i] == front[i] && markets[|front|] == m && markets[|front| - 1] == front[|front| - 1];
    assert x <= last < m.index;
    assert i == |front| - 1 <==> x == last;
    if i + 1 < |front| { assert markets[i + 1] == front[i + 1]; }
    hide Increasing;
    BeforeReads(o, w, m.index, x);
    NearGrows(o, x, last, m.index);
    RecordReads(o, w, m, x);
    hide LongAt, Near, Spared, Gap, Shaped, Step;
  }

  lemma RecordReads(o: Options, w: Walk, m: Market, x: int)
    requires Step(o, w, m).Ok? && x < m.index
    ensures LongAt(Step(o, w, m).value.events, x) == LongAt(EventsBefore(o, w, m.index), x)
    ensures |Step(o, w, m).value.decisions| == |w.decisions| + 1
    ensures Step(o, w, m).value.decisions[..|w.decisions|] == w.decisions
  {
    hide Decide, Next, EventsBefore, CarryBefore, LongAt;
    var before := EventsBefore(o, w, m.index);
    OneMore(before, Event(m.index, true), x);
    OneMore(before, Event(m.index, false), x);
  }

  lemma LastFollows(o: Options, front: seq<Market>, m: Market, w: Walk)
    requires o.Valid() && Shaped(o, w) && Increasing(front + [m]) && |front| == |w.decisions|
    requires w.previous == if front == [] then None else Some(front[|front| - 1].index)
    requires Step(o, w, m).Ok?
    ensures |Step(o, w, m).value.decisions| == |front| + 1
    ensures Follows(o, front + [m], Step(o, w, m).value, |front|)
  {
    var markets := front + [m];
    assert markets[|front|] == m;
    if front != [] { assert markets[|front| - 1] == front[|front| - 1]; }
    hide Clear, AllClear;
    StepKeeps(o, w, m);
    var after := Step(o, w, m).value;
    StepHolds(o, w, m);
    AtTheEnd(after.events, m.index, m.index);
    hide LongAt, Gap, Step;
  }

  /** The carried position is the one the decision leaves. */
  lemma StepHolds(o: Options, w: Walk, m: Market)
    requires o.Valid() && Shaped(o, w) && Step(o, w, m).Ok?
    ensures |Step(o, w, m).value.decisions| == |w.decisions| + 1
    ensures Step(o, w, m).value.carry.long <==> HoldsAfter(Step(o, w, m).value.decisions[|w.decisions|])
  {
    hide Decide, EventsBefore, CarryBefore, Shaped, Record;
    var carry := CarryBefore(o, w, m.index);
    ActionsFollowPosition(o.policy, m, carry, OverlayFor(o, m.regime));
  }

  lemma {:induction false} WalkFollows(o: Options, markets: seq<Market>)
    requires o.Valid() && Increasing(markets) && WalkOver(o, markets).Ok?
    ensures |WalkOver(o, markets).value.decisions| == |markets|
    ensures forall i :: 0 <= i < |markets| ==> Follows(o, markets, WalkOver(o, markets).value, i)
  {
    hide Step, Follows, Shaped;
    if markets != [] {
      var front, m := markets[..|markets| - 1], markets[|markets| - 1];
      assert markets == front + [m];
      WalkKeeps(o, front);
      WalkFollows(o, front);
      hide WalkOver;
      var w := WalkOver(o, front).value;
      LastFollows(o, front, m, w);
      forall i | 0 <= i < |front| ensures Follows(o, markets, Step(o, w, m).value, i) {
        StepFollows(o, front, m, w, i);
      }
    }
  }

  // ---------------------------------------------------------------- the finished schedule

  lemma ClosedReads(o: Options, w: Walk, x: int)
    requires o.Valid() && Shaped(o, w) && w.previous.Some? && x <= w.previous.value
    ensures LongAt(Closed(w), x) <==> x < w.previous.value && LongAt(w.events, x)
  {
    hide Clear, AllClear;
    var last := w.previous.value;
    AtTheEnd(w.events, last, last);
    if w.carry.long {
      OpenIsClosed(o, w);
      var front := w.events[..|w.events| - 1];
      FrontOf(w.events, last);
      OneMore(front, Last(w.events), x);
      OneMore(front, Event(last, false), x);
      OneMore(w.events, Event(last, false), x);
    }
    hide LongAt, Ordered, Alternates;
  }

  /** Cash is forced by the end of row `i`: it is the last one, a gap follows it, or a boundary is near ahead. */
  ghost predicate CutAt(o: Options, markets: seq<Market>, i: int)
    requires 0 <= i < |markets|
  {
    || i + 1 == |markets|
    || Gap(o, markets[i].index, markets[i + 1].index)
    || exists b :: b in o.boundaries && b - 2 - o.latency <= markets[i].index < b
  }

  /**
   For every prediction list, at every prediction: the finished schedule is long after it exactly when the arbiter's
   decision there is, and it is neither the last one, nor followed by a gap, nor within the latency of a boundary.
   */
  lemma ScheduleFollowsDecisions(o: Options, markets: seq<Market>, i: nat)
    requires o.Valid() && Increasing(markets) && WalkOver(o, markets).Ok? && i < |markets|
    ensures |WalkOver(o, markets).value.decisions| == |markets|
    ensures var w := WalkOver(o, markets).value;
            LongAt(Finished(o, w), markets[i].index) <==> HoldsAfter(w.decisions[i]) && !CutAt(o, markets, i)
  {
    hide Shaped, WalkOver, Closed, LongAt, Closes, ForceBetween, Gap;
    WalkKeeps(o, markets);
    WalkFollows(o, markets);
    var w := WalkOver(o, markets).value;
    var x, last := markets[i].index, markets[|markets| - 1].index;
    assert Follows(o, markets, w, i);
    ClosedIs(o, w);
    ClosedReads(o, w, x);
    FinishedReads(o, w, x);
    NearEnd(o, x, last);
    assert i + 1 == |markets| <==> x == last;
  }

  lemma FinishedReads(o: Options, w: Walk, x: int)
    requires o.Valid() && w.previous.Some? && Closes(o, Closed(w), w.previous.value)
    ensures LongAt(Finished(o, w), x) <==>
              LongAt(Closed(w), x)
              && Spared(o.boundaries, w.previous.value, w.previous.value + 1 + o.latency, o.latency, x)
  {
    hide AllClear, Closed, Ordered, Alternates, LongAt, ForceBetween, KeepUpTo;
    ForcedBetweenReads(
      Closed(w), o.boundaries, w.previous.value, w.previous.value + 1 + o.latency, o.latency, x);
  }

  /** Boundaries further than the latency behind the last row only ask for cash on it. */
  lemma NearEnd(o: Options, x: int, last: int)
    requires x <= last
    ensures x < last ==>
              ((exists b :: b in o.boundaries && b - 2 - o.latency <= x < b) <==>
               Near(o, x, last) || !Spared(o.boundaries, last, last + 1 + o.latency, o.latency, x))
  {
    if x < last {
      if exists b :: b in o.boundaries && b - 2 - o.latency <= x < b {
        var b :| b in o.boundaries && b - 2 - o.latency <= x < b;
        if b <= last { assert Near(o, x, last); }
      }
      if Near(o, x, last) {
        var b :| b in o.boundaries && b <= last && b - 2 - o.latency <= x < b;
        assert b in o.boundaries && b - 2 - o.latency <= x < b;
      }
    }
  }
}
