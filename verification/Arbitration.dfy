/** One long-or-cash decision from a complete state: entry filters, stops, holds, exits and cooldown. */
module Arbitration {
  import opened Wrappers
  import opened Domain

  datatype Regime = Unstable | Trending | Ranging | Indeterminate
  datatype Specialist = Trend | MeanReversion
  datatype Action = EnterLong | RemainLong | ExitToCash | RemainInCash

  datatype Policy = Policy(
    edgeExtraBps: real,
    entryProbability: real,
    holdProbability: real,
    exitProbability: real,
    companionFloor: real,
    disagreementLimit: real,
    initialStopAtr: real,
    trailingStopAtr: real,
    minimumHold: int,
    maximumHold: int,
    cooldown: int,
    tolerance: int)
  {
    predicate Valid() {
      && 0.0 <= exitProbability < holdProbability < entryProbability <= 1.0
      && 0.0 <= companionFloor <= 1.0
      && 0.0 <= disagreementLimit <= 1.0
      && 1 <= minimumHold <= maximumHold
      && cooldown >= 0
      && tolerance >= 0
    }
  }

  type ValidPolicy = p: Policy | p.Valid()
    witness Policy(0.0, 1.0, 0.5, 0.0, 0.0, 0.0, 0.0, 0.0, 1, 1, 0, 0)

  /** What the market shows at one prediction. */
  datatype Market = Market(
    index: int,
    regime: Regime,
    trendProbability: real,
    trendExpected: real,
    meanProbability: real,
    meanExpected: real,
    close: real,
    low: real,
    atr: real,
    stretch: bool,
    baseHurdleBps: real)
  {
    predicate Valid() {
      && index >= 0
      && 0.0 <= trendProbability <= 1.0 && 0.0 <= meanProbability <= 1.0
      && close > 0.0 && low > 0.0 && atr > 0.0 && baseHurdleBps >= 0.0
      && low <= close
    }
  }

  /** What the schedule carries from one decision into the next. */
  datatype Carry = Carry(
    long: bool,
    specialist: Option<Specialist>,
    holdAge: int,
    cooldown: int,
    streak: int,
    entryPrice: Option<real>,
    highestClose: Option<real>,
    stop: Option<real>)
  {
    /** The position checks of the input constructor. */
    predicate Valid() {
      && holdAge >= 0 && cooldown >= 0 && streak >= 0
      && (entryPrice.Some? ==> entryPrice.value > 0.0)
      && (highestClose.Some? ==> highestClose.value > 0.0)
      && (stop.Some? ==> stop.value > 0.0)
      && (long ==> specialist.Some? && entryPrice.Some? && highestClose.Some? && stop.Some?
                   && highestClose.value >= entryPrice.value)
      && (!long ==> specialist.None? && holdAge == 0 && entryPrice.None? && highestClose.None? && stop.None?)
    }
  }

  const CASH := Carry(false, None, 0, 0, 0, None, None, None)

  datatype Reason =
    | CooldownActive | UnstableRegime | IndeterminateRegime | NoStretch
    | BelowEntry | CompanionBelowFloor | Disagreement | EdgeBelowHurdle | NonPositiveStop | RulesPassed
    | StopHit | MaximumHold | ToleranceExceeded | IndeterminateTolerated | MinimumHold | AtOrBelowExit
    | AtOrAboveHold | Hysteresis

  datatype Decision = Decision(
    action: Action,
    specialist: Option<Specialist>,
    holdAge: int,
    cooldown: int,
    streak: int,
    initialStop: Option<real>,
    trailingStop: Option<real>,
    reasons: seq<Reason>)

  datatype Overlay = Overlay(threshold: Option<real>, companion: bool, disagreement: bool)

  function Cash(cooldown: int, reasons: seq<Reason>): Decision {
    Decision(RemainInCash, None, 0, cooldown, 0, None, None, reasons)
  }

  function EntryHurdle(policy: Policy, m: Market): real {
    (m.baseHurdleBps + policy.edgeExtraBps) / 10000.0
  }

  function EntryThreshold(policy: Policy, overlay: Option<Overlay>): real {
    if overlay.None? || overlay.value.threshold.None? then policy.entryProbability else overlay.value.threshold.value
  }

  function Append(reasons: seq<Reason>, when: bool, reason: Reason): seq<Reason> {
    if when then reasons + [reason] else reasons
  }

  function Objections(
    policy: Policy, m: Market, overlay: Option<Overlay>, active: real, companion: real, expected: real): seq<Reason>
  {
    var first := Append([], active < EntryThreshold(policy, overlay), BelowEntry);
    var watched := overlay.None? || overlay.value.companion;
    var second := Append(first, watched && companion < policy.companionFloor, CompanionBelowFloor);
    var compared := overlay.None? || overlay.value.disagreement;
    var apart := Abs(m.trendProbability - m.meanProbability);
    var third := Append(second, compared && apart > policy.disagreementLimit, Disagreement);
    Append(third, expected <= EntryHurdle(policy, m), EdgeBelowHurdle)
  }

  function TryEnter(policy: Policy, m: Market, overlay: Option<Overlay>, specialist: Specialist,
                    active: real, companion: real, expected: real): Decision
  {
    var objections := Objections(policy, m, overlay, active, companion, expected);
    var stop := m.close - policy.initialStopAtr * m.atr;
    if objections != [] then Cash(0, objections)
    else if stop <= 0.0 then Cash(0, [NonPositiveStop])
    else Decision(EnterLong, Some(specialist), 0, 0, 0, Some(stop), Some(stop), [RulesPassed])
  }

  function DecideCash(policy: Policy, m: Market, c: Carry, overlay: Option<Overlay>): Decision {
    if c.cooldown > 0 then Cash(c.cooldown - 1, [CooldownActive])
    else
      match m.regime
      case Unstable => Cash(0, [UnstableRegime])
      case Indeterminate => Cash(0, [IndeterminateRegime])
      case Trending => TryEnter(policy, m, overlay, Trend, m.trendProbability, m.meanProbability, m.trendExpected)
      case Ranging =>
        if !m.stretch then Cash(0, [NoStretch])
        else TryEnter(policy, m, overlay, MeanReversion, m.meanProbability, m.trendProbability, m.meanExpected)
  }

  function Exit(policy: Policy, c: Carry, initial: real, trailing: real, reason: Reason): Decision {
    Decision(ExitToCash, c.specialist, c.holdAge, policy.cooldown, 0, Some(initial), Some(trailing), [reason])
  }

  function Hold(c: Carry, streak: int, initial: real, trailing: real, reason: Reason): Decision {
    Decision(RemainLong, c.specialist, c.holdAge + 1, 0, streak, Some(initial), Some(trailing), [reason])
  }

  function DecideLong(policy: Policy, m: Market, c: Carry): Decision
    requires c.Valid() && c.long
  {
    var initial := c.entryPrice.value - policy.initialStopAtr * m.atr;
    var trailing := Max(c.stop.value, c.highestClose.value - policy.trailingStopAtr * m.atr);
    var active := if c.specialist.value.Trend? then m.trendProbability else m.meanProbability;
    if m.low <= trailing then Exit(policy, c, initial, trailing, StopHit)
    else if m.regime.Unstable? then Exit(policy, c, initial, trailing, UnstableRegime)
    else if c.holdAge >= policy.maximumHold then Exit(policy, c, initial, trailing, MaximumHold)
    else if m.regime.Indeterminate? then
      (if c.streak + 1 > policy.tolerance then Exit(policy, c, initial, trailing, ToleranceExceeded)
       else Hold(c, c.streak + 1, initial, trailing, IndeterminateTolerated))
    else if c.holdAge < policy.minimumHold then Hold(c, 0, initial, trailing, MinimumHold)
    else if active <= policy.exitProbability then Exit(policy, c, initial, trailing, AtOrBelowExit)
    else Hold(c, 0, initial, trailing, if active >= policy.holdProbability then AtOrAboveHold else Hysteresis)
  }

  function Decide(policy: Policy, m: Market, c: Carry, overlay: Option<Overlay>): Decision
    requires c.Valid()
  {
    if c.long then DecideLong(policy, m, c) else DecideCash(policy, m, c, overlay)
  }

  // ---------------------------------------------------------------- when an entry happens

  /** The specialist a regime listens to, with its probability, its companion's and its expected return. */
  datatype Voice = Voice(specialist: Specialist, active: real, companion: real, expected: real)

  function VoiceOf(m: Market): Voice {
    if m.regime.Trending? then Voice(Trend, m.trendProbability, m.meanProbability, m.trendExpected)
    else Voice(MeanReversion, m.meanProbability, m.trendProbability, m.meanExpected)
  }

  /** The one decision an entry can be. */
  function Entry(policy: Policy, m: Market): Decision {
    var stop := m.close - policy.initialStopAtr * m.atr;
    Decision(EnterLong, Some(VoiceOf(m).specialist), 0, 0, 0, Some(stop), Some(stop), [RulesPassed])
  }

  /** The whole entry rule as one condition, independent of the order of the checks. */
  predicate EntryAllowed(policy: Policy, m: Market, c: Carry, overlay: Option<Overlay>) {
    var voice := VoiceOf(m);
    && !c.long && c.cooldown <= 0
    && (m.regime.Trending? || (m.regime.Ranging? && m.stretch))
    && voice.active >= EntryThreshold(policy, overlay)
    && ((overlay.Some? && !overlay.value.companion) || voice.companion >= policy.companionFloor)
    && ((overlay.Some? && !overlay.value.disagreement)
        || (m.trendProbability - m.meanProbability <= policy.disagreementLimit
            && m.meanProbability - m.trendProbability <= policy.disagreementLimit))
    && voice.expected > EntryHurdle(policy, m)
    && m.close > policy.initialStopAtr * m.atr
  }

  lemma EntersIffAllowed(policy: Policy, m: Market, c: Carry, overlay: Option<Overlay>)
    requires c.Valid()
    ensures Decide(policy, m, c, overlay).action.EnterLong? <==> EntryAllowed(policy, m, c, overlay)
    ensures var d := Decide(policy, m, c, overlay);
            d.action.EnterLong? ==> d == Entry(policy, m) && d.initialStop.value > 0.0
  {
  }

  /** Overlays that ask for no more than the base rules do. */
  predicate Looser(policy: Policy, overlay: Overlay) {
    overlay.threshold.None? || overlay.threshold.value <= policy.entryProbability
  }

  /** An overlay never touches a long decision, and a looser one keeps every base entry unchanged. */
  lemma OverlaysOnlyAffectEntries(policy: Policy, m: Market, c: Carry, overlay: Overlay)
    requires c.Valid()
    ensures c.long ==> Decide(policy, m, c, Some(overlay)) == Decide(policy, m, c, None)
    ensures Looser(policy, overlay) && Decide(policy, m, c, None).action.EnterLong? ==>
              Decide(policy, m, c, Some(overlay)) == Decide(policy, m, c, None)
    ensures Decide(policy, m, c, Some(overlay)).action.EnterLong? && !Decide(policy, m, c, None).action.EnterLong? ==>
              || (overlay.threshold.Some? && overlay.threshold.value < policy.entryProbability)
              || !overlay.companion || !overlay.disagreement
  {
    if !c.long {
      EntersIffAllowed(policy, m, c, Some(overlay));
      EntersIffAllowed(policy, m, c, None);
    }
  }

  // ---------------------------------------------------------------- when a position is left

  /** The specialist a position was opened on keeps its say over it. */
  function HeldProbability(m: Market, c: Carry): real {
    if c.specialist == Some(Trend) then m.trendProbability else m.meanProbability
  }

  /** The candle traded at or below the carried stop, or below the trail under the highest close. */
  predicate StopTouched(policy: Policy, m: Market, c: Carry)
    requires c.Valid() && c.long
  {
    m.low <= c.stop.value || m.low <= c.highestClose.value - policy.trailingStopAtr * m.atr
  }

  /** The whole exit rule as one condition, independent of the order of the checks. */
  predicate ExitDue(policy: Policy, m: Market, c: Carry)
    requires c.Valid() && c.long
  {
    || StopTouched(policy, m, c)
    || m.regime.Unstable?
    || c.holdAge >= policy.maximumHold
    || (m.regime.Indeterminate? && c.streak >= policy.tolerance)
    || (!m.regime.Indeterminate? && c.holdAge >= policy.minimumHold && HeldProbability(m, c) <= policy.exitProbability)
  }

  /** A reason given for an exit, or for staying long, is a fact. */
  predicate Gives(policy: Policy, m: Market, c: Carry, reason: Reason)
    requires c.Valid() && c.long
  {
    match reason
    case StopHit => StopTouched(policy, m, c)
    case UnstableRegime => m.regime.Unstable?
    case MaximumHold => c.holdAge >= policy.maximumHold
    case ToleranceExceeded => m.regime.Indeterminate? && c.streak >= policy.tolerance
    case IndeterminateTolerated => m.regime.Indeterminate? && c.streak < policy.tolerance
    case MinimumHold => !m.regime.Indeterminate? && c.holdAge < policy.minimumHold
    case AtOrBelowExit => HeldProbability(m, c) <= policy.exitProbability
    case AtOrAboveHold =>
      HeldProbability(m, c) > policy.exitProbability && HeldProbability(m, c) >= policy.holdProbability
    case Hysteresis => policy.exitProbability < HeldProbability(m, c) < policy.holdProbability
    case _ => false
  }

  /** The stop a long decision answers with: the carried one, or the trail if that is higher. */
  ghost predicate TrailsTo(policy: Policy, m: Market, c: Carry, stop: real)
    requires c.Valid() && c.long
  {
    var trail := c.highestClose.value - policy.trailingStopAtr * m.atr;
    stop >= c.stop.value && stop >= trail && (stop == c.stop.value || stop == trail)
  }

  /**
   A position is left exactly when an exit is due. Either way the decision keeps the specialist, trails the stop,
   restates the initial one, and gives one reason that holds; staying long ages the position by one candle and
   counts an indeterminate regime.
   */
  lemma ExitsIffDue(policy: Policy, m: Market, c: Carry, overlay: Option<Overlay>)
    requires c.Valid() && c.long
    ensures var d := Decide(policy, m, c, overlay);
            && (d.action.ExitToCash? <==> ExitDue(policy, m, c))
            && (d.action.RemainLong? <==> !ExitDue(policy, m, c))
            && d.specialist == c.specialist
            && d.initialStop.Some? && d.initialStop.value == c.entryPrice.value - policy.initialStopAtr * m.atr
            && d.trailingStop.Some? && TrailsTo(policy, m, c, d.trailingStop.value)
            && |d.reasons| == 1 && Gives(policy, m, c, d.reasons[0])
            && (d.action.ExitToCash? ==> d.holdAge == c.holdAge && d.cooldown == policy.cooldown && d.streak == 0)
            && (d.action.RemainLong? ==>
                  && d.holdAge == c.holdAge + 1 && d.cooldown == 0
                  && d.streak == (if m.regime.Indeterminate? then c.streak + 1 else 0)
                  && m.low > d.trailingStop.value)
  {
  }

  // ---------------------------------------------------------------- carrying a decision forward

  /** The state after a decision: what the schedule keeps for the next prediction. */
  function Next(m: Market, c: Carry, d: Decision): Carry
    requires c.Valid()
  {
    match d.action
    case EnterLong => Carry(true, d.specialist, d.holdAge, 0, 0, Some(m.close), Some(m.close), d.trailingStop)
    case RemainLong =>
      c.(holdAge := d.holdAge, streak := d.streak, stop := d.trailingStop,
         highestClose := if c.highestClose.Some? then Some(Max(c.highestClose.value, m.close)) else Some(m.close))
    case ExitToCash => Carry(false, None, 0, d.cooldown, 0, None, None, None)
    case RemainInCash => c.(cooldown := d.cooldown)
  }

  /** The bounds every carried state respects. */
  predicate Bounded(policy: Policy, c: Carry) {
    && c.Valid()
    && c.holdAge <= policy.maximumHold
    && c.cooldown <= policy.cooldown
    && c.streak <= policy.tolerance
    && (c.long ==> c.cooldown == 0)
    && (!c.long ==> c.streak == 0)
  }

  lemma CashIsBounded(policy: ValidPolicy)
    ensures Bounded(policy, CASH)
  {
  }

  /** One decision keeps the bounds, never lowers the stop and never lowers the highest close. */
  lemma DecisionKeepsBounds(policy: ValidPolicy, m: Market, c: Carry, overlay: Option<Overlay>)
    requires Bounded(policy, c) && m.Valid()
    ensures var d := Decide(policy, m, c, overlay);
            var next := Next(m, c, d);
            && Bounded(policy, next)
            && (c.long && next.long ==>
                  && next.stop.value >= c.stop.value
                  && next.highestClose.value == Max(c.highestClose.value, m.close)
                  && next.entryPrice == c.entryPrice && next.specialist == c.specialist
                  && next.holdAge == c.holdAge + 1)
            && (c.long && d.trailingStop.Some? ==> d.trailingStop.value >= c.stop.value)
            && (!c.long && !next.long ==> next.cooldown == if c.cooldown > 0 then c.cooldown - 1 else 0)
  {
    hide Objections;
    if !c.long {
      EntersIffAllowed(policy, m, c, overlay);
    }
  }

  /** Actions follow the position: entries only from cash, holds and exits only from long. */
  lemma ActionsFollowPosition(policy: Policy, m: Market, c: Carry, overlay: Option<Overlay>)
    requires c.Valid()
    ensures var d := Decide(policy, m, c, overlay);
            && (c.long <==> d.action.RemainLong? || d.action.ExitToCash?)
            && (Next(m, c, d).long <==> d.action.EnterLong? || d.action.RemainLong?)
            && (d.action.EnterLong? ==> c.cooldown <= 0)
            && (d.action.ExitToCash? ==> Next(m, c, d).cooldown == policy.cooldown)
  {
  }
}
