/** One position from its entry to its exit, told from the predictions alone: its stop, its streak and when it ends. */
module HoldEpisodes {
  import opened Wrappers
  import opened Domain
  import opened Arbitration
  import opened CandidateSchedule

  function Initial(policy: Policy, markets: seq<Market>, e: nat): real
    requires e < |markets|
  {
    markets[e].close - policy.initialStopAtr * markets[e].atr
  }

  function Trail(policy: Policy, markets: seq<Market>, e: nat, t: nat): real
    requires e < t < |markets|
  {
    HighestClose(markets, e, t) - policy.trailingStopAtr * markets[t].atr
  }

  /** The trailing stop at prediction `j` of a position entered at `e`. */
  function EpisodeStop(policy: Policy, markets: seq<Market>, e: nat, j: nat): real
    requires e <= j < |markets|
    decreases j
  {
    if j == e then Initial(policy, markets, e)
    else Max(EpisodeStop(policy, markets, e, j - 1), Trail(policy, markets, e, j))
  }

  /** How many predictions directly before `j`, back to the entry, were indeterminate. */
  function IndeterminateRun(markets: seq<Market>, e: nat, j: nat): nat
    requires e < j <= |markets|
    decreases j
  {
    if j > e + 1 && markets[j - 1].regime.Indeterminate? then 1 + IndeterminateRun(markets, e, j - 1) else 0
  }

  function EntryProbability(markets: seq<Market>, e: nat, j: nat): real
    requires e < j < |markets|
  {
    if markets[e].regime.Trending? then markets[j].trendProbability else markets[j].meanProbability
  }

  /** The exit rule of a position entered at `e`, from the predictions since then and nothing else. */
  predicate EpisodeEnds(policy: Policy, markets: seq<Market>, e: nat, j: nat)
    requires e < j < |markets|
  {
    || markets[j].low <= EpisodeStop(policy, markets, e, j)
    || markets[j].regime.Unstable?
    || j - e > policy.maximumHold
    || (markets[j].regime.Indeterminate? && IndeterminateRun(markets, e, j) >= policy.tolerance)
    || (!markets[j].regime.Indeterminate? && j - e > policy.minimumHold
        && EntryProbability(markets, e, j) <= policy.exitProbability)
  }

  /** Along an unbroken hold the carried stop and streak are the episode's. */
  lemma {:induction false} HoldCarriesStopAndStreak(
    o: Options, markets: seq<Market>, ds: seq<Decision>, cs: seq<Carry>, e: nat, j: nat)
    requires IsRun(o, markets, ds, cs) && e < j < |markets| && Unbroken(o, markets, e, j) && Holding(ds, e, j)
    ensures cs[j].stop == Some(EpisodeStop(o.policy, markets, e, j - 1))
    ensures cs[j].streak == IndeterminateRun(markets, e, j)
  {
    assert LinkAt(o, markets, ds, cs, j) && LinkAt(o, markets, ds, cs, j - 1) && Follows(o, markets, j);
    hide Decide, HighestClose, Follows, Next, Bounded, Market.Valid, Initial, Trail, EntryAllowed, Unbroken;
    var m, c, overlay := markets[j - 1], cs[j - 1], OverlayFor(o, markets[j - 1].regime);
    if j > e + 1 {
      HoldCarriesTheEpisode(o, markets, ds, cs, e, j - 1);
      HoldCarriesStopAndStreak(o, markets, ds, cs, e, j - 1);
      HeldState(o.policy, markets, e, j - 1, c, overlay);
    } else {
      EnteredState(o.policy, markets, e, c, overlay);
    }
  }

  lemma EnteredState(policy: Policy, markets: seq<Market>, e: nat, c: Carry, overlay: Option<Overlay>)
    requires e < |markets| && c.Valid() && Decide(policy, markets[e], c, overlay).action.EnterLong?
    ensures var next := Next(markets[e], c, Decide(policy, markets[e], c, overlay));
            next.stop == Some(Initial(policy, markets, e)) && next.streak == 0
  {
    EntersIffAllowed(policy, markets[e], c, overlay);
    hide Decide, EntryAllowed;
  }

  lemma HeldState(policy: Policy, markets: seq<Market>, e: nat, t: nat, c: Carry, overlay: Option<Overlay>)
    requires e < t < |markets| && c.Valid() && c.long && Decide(policy, markets[t], c, overlay).action.RemainLong?
    requires c.highestClose == Some(HighestClose(markets, e, t))
    ensures var next := Next(markets[t], c, Decide(policy, markets[t], c, overlay));
            && next.stop == Some(Max(c.stop.value, Trail(policy, markets, e, t)))
            && next.streak == if markets[t].regime.Indeterminate? then c.streak + 1 else 0
  {
    ExitsIffDue(policy, markets[t], c, overlay);
    hide Decide, HighestClose;
  }

  /**
   From the predictions alone: along an unbroken hold the position ends at `j` exactly when the candle touched the
   episode's stop, the regime turned unstable, the position is too old, indeterminate regimes lasted too long, or
   the entry's own probability fell to the exit level after the minimum hold.
   */
  lemma PositionEndsIff(o: Options, markets: seq<Market>, ds: seq<Decision>, cs: seq<Carry>, e: nat, j: nat)
    requires IsRun(o, markets, ds, cs) && e < j < |markets| && Unbroken(o, markets, e, j) && Holding(ds, e, j)
    ensures ds[j].action.ExitToCash? <==> EpisodeEnds(o.policy, markets, e, j)
    ensures ds[j].action.RemainLong? <==> !EpisodeEnds(o.policy, markets, e, j)
    ensures ds[j].trailingStop == Some(EpisodeStop(o.policy, markets, e, j))
    ensures ds[j].action.RemainLong? ==> markets[j].low > EpisodeStop(o.policy, markets, e, j)
  {
    hide Unbroken, Decide, HighestClose, Follows, ExitDue, EpisodeEnds, EpisodeStop, TrailsTo, Next;
    HoldCarriesTheEpisode(o, markets, ds, cs, e, j);
    HoldCarriesStopAndStreak(o, markets, ds, cs, e, j);
    assert LinkAt(o, markets, ds, cs, j) && LinkAt(o, markets, ds, cs, e);
    EnteredOnItsVoice(o, markets, ds, cs, e);
    ExitsIffDue(o.policy, markets[j], cs[j], OverlayFor(o, markets[j].regime));
    DueIsEnd(o.policy, markets, e, j, cs[j], ds[j].trailingStop.value);
  }

  /** Read from the episode's state, the one-step exit rule is the episode's. */
  lemma DueIsEnd(policy: Policy, markets: seq<Market>, e: nat, j: nat, c: Carry, stop: real)
    requires e < j < |markets| && c.Valid() && c.long && c.holdAge == j - e - 1
    requires c.highestClose == Some(HighestClose(markets, e, j))
    requires c.stop == Some(EpisodeStop(policy, markets, e, j - 1)) && c.streak == IndeterminateRun(markets, e, j)
    requires c.specialist == Some(if markets[e].regime.Trending? then Trend else MeanReversion)
    requires TrailsTo(policy, markets[j], c, stop)
    ensures ExitDue(policy, markets[j], c) <==> EpisodeEnds(policy, markets, e, j)
    ensures stop == EpisodeStop(policy, markets, e, j)
  {
    hide HighestClose, IndeterminateRun;
  }

  lemma EnteredOnItsVoice(o: Options, markets: seq<Market>, ds: seq<Decision>, cs: seq<Carry>, e: nat)
    requires IsRun(o, markets, ds, cs) && e < |markets| && ds[e].action.EnterLong?
    ensures VoiceOf(markets[e]).specialist.Trend? <==> markets[e].regime.Trending?
  {
  }

  /** Every candle of a hold stayed above the stop it left behind, so no touched stop is ever held through. */
  lemma HeldCandlesStayAboveTheStop(
    o: Options, markets: seq<Market>, ds: seq<Decision>, cs: seq<Carry>, e: nat, i: nat, j: nat)
    requires IsRun(o, markets, ds, cs) && e < i < j < |markets| && Unbroken(o, markets, e, j) && Holding(ds, e, j)
    ensures cs[i + 1].stop.Some? && markets[i].low > cs[i + 1].stop.value
  {
    hide IsRun, Decide, HighestClose, Follows;
    PositionEndsIff(o, markets, ds, cs, e, i);
    HoldCarriesStopAndStreak(o, markets, ds, cs, e, i + 1);
  }

  /** The episode's stop is the highest of the initial stop and every trail since, and one of them. */
  lemma {:induction false} StopIsHighestTrail(policy: Policy, markets: seq<Market>, e: nat, j: nat)
    requires e <= j < |markets|
    ensures var stop := EpisodeStop(policy, markets, e, j);
            && stop >= Initial(policy, markets, e)
            && (forall t :: e < t <= j ==> stop >= Trail(policy, markets, e, t))
            && (stop == Initial(policy, markets, e) || exists t :: e < t <= j && stop == Trail(policy, markets, e, t))
    decreases j
  {
    hide HighestClose, Initial, Trail;
    if j > e {
      StopIsHighestTrail(policy, markets, e, j - 1);
      var earlier, stop := EpisodeStop(policy, markets, e, j - 1), EpisodeStop(policy, markets, e, j);
      if stop == earlier && earlier != Initial(policy, markets, e) {
        var t :| e < t <= j - 1 && earlier == Trail(policy, markets, e, t);
        assert stop == Trail(policy, markets, e, t);
      }
    }
  }

  /** The highest close since the entry bounds every close since then and is one of them. */
  lemma {:induction false} HighestCloseIsHighest(markets: seq<Market>, e: nat, j: nat)
    requires e < j <= |markets|
    ensures forall t :: e <= t < j ==> markets[t].close <= HighestClose(markets, e, j)
    ensures exists t :: e <= t < j && markets[t].close == HighestClose(markets, e, j)
    decreases j
  {
    if j > e + 1 {
      HighestCloseIsHighest(markets, e, j - 1);
      var earlier, high, last := HighestClose(markets, e, j - 1), HighestClose(markets, e, j), markets[j - 1];
      assert high == Max(earlier, last.close);
      if high == earlier {
        var t :| e <= t < j - 1 && markets[t].close == earlier;
        assert markets[t].close == high;
      } else {
        assert markets[j - 1].close == high;
      }
    } else {
      assert markets[e].close == HighestClose(markets, e, j);
    }
  }

  // ---------------------------------------------------------------- schedules enter only where a decision did

  /** No entry in the first list that is not in the second. */
  ghost predicate NoNewEntry(events: seq<Event>, source: seq<Event>) {
    forall e :: e in events && e.enter ==> e in source
  }

  lemma {:induction false} KeepUpToAddsNothing(events: seq<Event>, limit: int)
    ensures NoNewEntry(KeepUpTo(events, limit), events)
  {
    if events != [] {
      KeepUpToAddsNothing(events[..|events| - 1], limit);
      assert events == events[..|events| - 1] + [events[|events| - 1]];
    }
  }

  lemma {:induction false} DropAtAddsNothing(events: seq<Event>, index: int)
    ensures NoNewEntry(DropAt(events, index), events)
  {
    if events != [] {
      DropAtAddsNothing(events[..|events| - 1], index);
      assert events == events[..|events| - 1] + [events[|events| - 1]];
    }
  }

  lemma ForceCashAddsNothing(events: seq<Event>, boundary: int, latency: int)
    ensures NoNewEntry(ForceCash(events, boundary, latency), events)
  {
    KeepUpToAddsNothing(events, boundary - 2 - latency);
    hide KeepUpTo;
  }

  lemma {:induction false} ForceBetweenAddsNothing(
    events: seq<Event>, boundaries: seq<int>, after: int, upTo: int, latency: int)
    ensures NoNewEntry(ForceBetween(events, boundaries, after, upTo, latency), events)
  {
    hide ForceCash;
    if boundaries != [] {
      var front, b := boundaries[..|boundaries| - 1], boundaries[|boundaries| - 1];
      ForceBetweenAddsNothing(events, front, after, upTo, latency);
      ForceCashAddsNothing(ForceBetween(events, front, after, upTo, latency), b, latency);
    }
  }

  lemma CloseLongAddsNothing(events: seq<Event>, previous: int)
    ensures NoNewEntry(CloseLong(events, previous), events)
  {
  }

  /** Every entry of the walk is a prediction whose decision entered. */
  ghost predicate Decided(markets: seq<Market>, ds: seq<Decision>, e: Event)
    requires |ds| == |markets|
  {
    exists i :: 0 <= i < |markets| && markets[i].index == e.index && ds[i].action.EnterLong?
  }

  ghost predicate AllDecided(markets: seq<Market>, ds: seq<Decision>, events: seq<Event>) {
    |ds| == |markets| && forall e :: e in events && e.enter ==> Decided(markets, ds, e)
  }

  lemma EventsBeforeAddNothing(o: Options, w: Walk, index: int)
    ensures NoNewEntry(EventsBefore(o, w, index), w.events)
  {
    hide ForceBetween, CloseLong;
    if w.previous.Some? {
      ForceBetweenAddsNothing(w.events, o.boundaries, w.previous.value, index, o.latency);
      CloseLongAddsNothing(w.events, w.previous.value);
    }
  }

  lemma {:induction false} EntriesAreDecided(o: Options, markets: seq<Market>)
    requires WalkOver(o, markets).Ok?
    ensures AllDecided(markets, WalkOver(o, markets).value.decisions, WalkOver(o, markets).value.events)
  {
    if markets != [] {
      hide EventsBefore, Decide, Next, CarryBefore, Market.Valid;
      var front, m := markets[..|markets| - 1], markets[|markets| - 1];
      EntriesAreDecided(o, front);
      var before, after := WalkOver(o, front).value, WalkOver(o, markets).value;
      EventsBeforeAddNothing(o, before, m.index);
      var ds := after.decisions;
      forall e | e in after.events && e.enter ensures Decided(markets, ds, e) {
        if e in EventsBefore(o, before, m.index) {
          assert Decided(front, before.decisions, e);
          var i :| 0 <= i < |front| && front[i].index == e.index && before.decisions[i].action.EnterLong?;
          assert markets[i] == front[i] && ds[i] == before.decisions[i];
        } else {
          assert markets[|front|].index == e.index && ds[|front|].action.EnterLong?;
        }
      }
    }
  }

  /** The finished schedule never enters where the arbiter did not. */
  lemma SchedulesOnlyEnterWhereDecided(o: Options, markets: seq<Market>)
    requires WalkOver(o, markets).Ok?
    ensures AllDecided(markets, WalkOver(o, markets).value.decisions, Finished(o, WalkOver(o, markets).value))
  {
    hide WalkOver, ForceBetween, DropAt, Decided;
    EntriesAreDecided(o, markets);
    var w := WalkOver(o, markets).value;
    if w.previous.Some? {
      DropAtAddsNothing(w.events, w.previous.value);
      ForceBetweenAddsNothing(Closed(w), o.boundaries, w.previous.value, w.previous.value + 1 + o.latency, o.latency);
    }
  }
}
